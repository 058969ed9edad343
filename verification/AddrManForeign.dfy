/**
 Streams that Serialize did not write (src/addrman.h): which of them Unserialize still turns
 into a consistent manager.  Every id may be without a bucket while the stream is read.
 */
module AddrManForeign {
  import opened AddrManState
  import opened AddrManStream

  // ---------------------------------------------------------------------------
  // Entering what was read.

  lemma EnterHolds(h: Hasher, t: State, x: AddrInfo, c: Condition)
    requires Core(h, t, t.info.Keys) && x.service.ip !in t.addr && t.idCount !in t.info && t.idCount >= 0
    requires x.refCount == 0 && !x.inTried && x.stats.lastTry >= 0 && x.stats.lastSuccess >= 0
    requires forall sl :: sl in t.new_ ==> t.new_[sl] in t.info
    ensures var u := Enter(t, t.idCount, x).(nNew := t.nNew + 1, idCount := t.idCount + 1); Holds(h, u, u.info.Keys, c)
  {
    var id, y := t.idCount, x.(randomPos := |t.random|);
    assert Holds(h, t, t.info.Keys, c);
    match c
    case Key =>
    case RandomVector => CreateKeepsRandom(t.info, t.random, id, y);
    case AddressMap => CreateKeepsAddr(t.info, t.addr, id, y);
    case RefCounts => assert Refs(t.new_, id) == {};
    case NewTable =>
    case TriedTable => CreateKeepsTried(h, t.key, t.info, t.tried, id, y);
    case Counters => CreateKeepsCounts(t.info, id, y);
    case Entries =>
  }

  /** An entry for the new table, under an address that is not known. */
  lemma EnterKeepsCore(h: Hasher, t: State, x: AddrInfo)
    requires Core(h, t, t.info.Keys) && x.service.ip !in t.addr
    requires x.refCount == 0 && !x.inTried && x.stats.lastTry >= 0 && x.stats.lastSuccess >= 0
    ensures var u := Enter(t, t.idCount, x).(nNew := t.nNew + 1, idCount := t.idCount + 1); Core(h, u, u.info.Keys)
  {
    assert t.idCount !in t.info && t.idCount >= 0 by { assert Holds(h, t, t.info.Keys, Entries); }
    assert forall sl :: sl in t.new_ ==> t.new_[sl] in t.info by { assert Holds(h, t, t.info.Keys, NewTable); }
    var u := Enter(t, t.idCount, x).(nNew := t.nNew + 1, idCount := t.idCount + 1);
    forall c ensures Holds(h, u, u.info.Keys, c) {
      EnterHolds(h, t, x, c);
    }
  }

  lemma TriedCounts(info: map<int, AddrInfo>, id: int, y: AddrInfo)
    requires id !in info && y.inTried
    ensures |info[id := y]| == |info| + 1 && |TriedIds(info[id := y])| == |TriedIds(info)| + 1
  {
    InsertionGrows(info, id, y);
    TriedIdsGrow(info, id, y);
  }

  lemma EnterTriedHolds(h: Hasher, t: State, x: AddrInfo, c: Condition)
    requires Core(h, t, t.info.Keys) && x.service.ip !in t.addr && t.idCount !in t.info && t.idCount >= 0
    requires x.refCount == 0 && x.stats.lastTry >= 0 && x.stats.lastSuccess > 0 && h.TriedSlot(t.key, x.service) !in t.tried
    requires forall sl :: sl in t.new_ ==> t.new_[sl] in t.info
    ensures var u := EnterTried(h, t, x).(nTried := t.nTried + 1); Holds(h, u, u.info.Keys, c)
  {
    var id, y := t.idCount, x.(inTried := true, randomPos := |t.random|);
    assert Holds(h, t, t.info.Keys, c);
    match c
    case Key =>
    case RandomVector => CreateKeepsRandom(t.info, t.random, id, y);
    case AddressMap => CreateKeepsAddr(t.info, t.addr, id, y);
    case RefCounts => assert Refs(t.new_, id) == {};
    case NewTable =>
    case TriedTable =>
    case Counters => TriedCounts(t.info, id, y);
    case Entries =>
  }

  /** A tried entry, under an address that is not known, whose slot is free. */
  lemma EnterTriedKeepsCore(h: Hasher, t: State, x: AddrInfo)
    requires Core(h, t, t.info.Keys) && x.service.ip !in t.addr && h.TriedSlot(t.key, x.service) !in t.tried
    requires x.refCount == 0 && x.stats.lastTry >= 0 && x.stats.lastSuccess > 0
    ensures var u := EnterTried(h, t, x).(nTried := t.nTried + 1); Core(h, u, u.info.Keys)
  {
    assert t.idCount !in t.info && t.idCount >= 0 by { assert Holds(h, t, t.info.Keys, Entries); }
    assert forall sl :: sl in t.new_ ==> t.new_[sl] in t.info by { assert Holds(h, t, t.info.Keys, NewTable); }
    var u := EnterTried(h, t, x).(nTried := t.nTried + 1);
    forall c ensures Holds(h, u, u.info.Keys, c) {
      EnterTriedHolds(h, t, x, c);
    }
  }

  lemma MorePending(h: Hasher, s: State, pending: set<int>, more: set<int>)
    requires Core(h, s, pending) && pending <= more
    ensures Core(h, s, more)
  {
    forall c ensures Holds(h, s, more, c) {
      assert Holds(h, s, pending, c);
    }
  }

  /** A reference at the right place. */
  lemma PlaceKeepsLoose(h: Hasher, t: State, id: int, sl: Slot)
    requires Core(h, t, t.info.Keys) && id in t.info && !t.info[id].inTried && t.info[id].refCount < NEW_BUCKETS_PER_ADDRESS
    requires sl !in t.new_ && sl.bucket < NEW_BUCKET_COUNT && sl == h.NewSlotIn(t.key, sl.bucket, t.info[id].service)
    ensures Core(h, Place(t, id, sl), Place(t, id, sl).info.Keys)
  {
    PlaceKeepsCore(h, t, id, sl, t.info.Keys);
    assert Place(t, id, sl).info.Keys == t.info.Keys;
    MorePending(h, Place(t, id, sl), t.info.Keys - {id}, t.info.Keys);
  }

  /** Dropping an entry without a place. */
  lemma DeleteKeepsLoose(h: Hasher, t: State, id: int)
    requires Core(h, t, t.info.Keys) && id in t.info && !t.info[id].inTried && t.info[id].refCount == 0
    ensures RandomOk(t.info, t.random) && Core(h, Delete(t, id), Delete(t, id).info.Keys)
  {
    DeleteKeepsCore(h, t, id, t.info.Keys);
  }

  /** When every entry that is not tried has a place, nothing is pending. */
  lemma NothingPending(h: Hasher, t: State)
    requires Core(h, t, t.info.Keys) && forall n :: n in t.info && !t.info[n].inTried ==> t.info[n].refCount != 0
    ensures Inv(h, t)
  {
    forall c ensures Holds(h, t, {}, c) {
      assert Holds(h, t, t.info.Keys, c);
    }
  }

  // ---------------------------------------------------------------------------
  // The streams.

  ghost predicate IpAmong(input: seq<Token>, n: nat, ip: NetAddr) {
    exists i: nat :: i < n && i < |input| && input[i].Entry? && input[i].info.service.ip == ip
  }

  ghost predicate AllAmong(info: map<int, AddrInfo>, input: seq<Token>, n: nat) {
    forall k :: k in info ==> IpAmong(input, n, info[k].service.ip)
  }

  /** Entries with addresses of their own, none with a success before time began, and the tried ones with one. */
  ghost predicate SaneEntries(input: seq<Token>, first: nat, total: nat) {
    && first <= total <= |input|
    && (forall i :: 0 <= i < total ==> input[i].Entry? && input[i].info.lastSuccess >= if i < first then 0 else 1)
    && (forall i, j :: 0 <= i < j < total ==> input[i].info.service.ip != input[j].info.service.ip)
  }

  /** A stream with a key, honest counts and such entries; whatever its version and its buckets. */
  ghost predicate SaneStream(input: seq<Token>) {
    |input| >= 6 && SaneBody(ReadHeader(input), input[6..])
  }

  ghost predicate SaneBody(r: HeaderResult, body: seq<Token>) {
    r.GoodHeader? && r.key != 0 && r.nNew >= 0 && r.nTried >= 0 && SaneEntries(body, r.nNew, r.nNew + r.nTried)
  }

  datatype SaneAspect = Structure | Origins | Kinds

  ghost predicate SaneBy(h: Hasher, t: State, input: seq<Token>, n: nat, c: SaneAspect) {
    match c
    case Structure => Core(h, t, t.info.Keys)
    case Origins => AllAmong(t.info, input, n)
    case Kinds => forall k :: k in t.info && k < t.nNew ==> !t.info[k].inTried
  }

  /** A state with the counters of what was read so far. */
  function Counted(t: State, nNew: int, nTried: int, idCount: int): State {
    t.(nNew := nNew, nTried := nTried, idCount := idCount)
  }

  /** After n entries of a stream: consistent but for places, and every address is one of those read. */
  ghost predicate Sane(h: Hasher, t: State, input: seq<Token>, n: nat) {
    forall c :: SaneBy(h, t, input, n, c)
  }

  lemma SaneStarts(h: Hasher, t: State, input: seq<Token>)
    requires t.key != 0 && t.info == map[] && t.addr == map[] && t.random == [] && t.tried == map[] && t.new_ == map[]
    requires t.nNew == 0 && t.nTried == 0 && t.idCount == 0
    ensures Sane(h, t, input, 0)
  {
  }

  lemma NextIsUnknown(h: Hasher, t: State, input: seq<Token>, n: nat, first: nat, total: nat)
    requires Sane(h, t, input, n) && SaneEntries(input, first, total) && n < total
    ensures input[n].info.service.ip !in t.addr
  {
    assert SaneBy(h, t, input, n, Structure) && SaneBy(h, t, input, n, Origins);
    assert Holds(h, t, t.info.Keys, AddressMap);
    KnownIsAmong(t.info, t.addr, input, n, input[n].info.service.ip);
    NotAmong(input, n, first, total);
  }

  lemma KnownIsAmong(info: map<int, AddrInfo>, addr: map<NetAddr, int>, input: seq<Token>, n: nat, ip: NetAddr)
    requires AddrOk(info, addr) && AllAmong(info, input, n)
    ensures ip in addr ==> IpAmong(input, n, ip)
  {
    if ip in addr {
      var k: int := addr[ip];
      assert k in info && info[k].service.ip == ip;
      assert IpAmong(input, n, info[k].service.ip);
    }
  }

  lemma NotAmong(input: seq<Token>, n: nat, first: nat, total: nat)
    requires SaneEntries(input, first, total) && n < total
    ensures !IpAmong(input, n, input[n].info.service.ip)
  {
  }

  lemma AddressesGrow(info: map<int, AddrInfo>, id: int, x: AddrInfo, input: seq<Token>, n: nat)
    requires n < |input| && input[n].Entry? && input[n].info.service.ip == x.service.ip
    requires AllAmong(info, input, n)
    ensures AllAmong(info[id := x], input, n + 1)
  {
    var info' := info[id := x];
    forall k | k in info' ensures IpAmong(input, n + 1, info'[k].service.ip) {
      if k == id {
        assert input[n].info.service.ip == info'[k].service.ip;
      } else {
        assert IpAmong(input, n, info[k].service.ip);
      }
    }
  }

  /** One more entry of the new table. */
  lemma SaneEnter(h: Hasher, t: State, input: seq<Token>, n: nat, first: nat, total: nat)
    requires Sane(h, t, input, n) && SaneEntries(input, first, total) && n < total && t.nNew == t.idCount
    ensures var u := Enter(t, t.idCount, Load(input[n].info)).(nNew := t.nNew + 1, idCount := t.idCount + 1);
            Sane(h, u, input, n + 1)
  {
    NextIsUnknown(h, t, input, n, first, total);
    assert SaneBy(h, t, input, n, Structure) && SaneBy(h, t, input, n, Origins) && SaneBy(h, t, input, n, Kinds);
    assert Holds(h, t, t.info.Keys, Entries);
    var x := Load(input[n].info);
    EnterKeepsCore(h, t, x);
    AddressesGrow(t.info, t.idCount, x.(randomPos := |t.random|), input, n);
  }

  /** One more tried entry, whose slot is free. */
  lemma SaneEnterTried(h: Hasher, t: State, input: seq<Token>, n: nat, first: nat, total: nat)
    requires Sane(h, t, input, n) && SaneEntries(input, first, total) && first <= n < total && t.nNew <= t.idCount
    requires h.TriedSlot(t.key, input[n].info.service) !in t.tried
    ensures Sane(h, EnterTried(h, t, Load(input[n].info)).(nTried := t.nTried + 1), input, n + 1)
  {
    NextIsUnknown(h, t, input, n, first, total);
    assert SaneBy(h, t, input, n, Structure) && SaneBy(h, t, input, n, Origins) && SaneBy(h, t, input, n, Kinds);
    var x := Load(input[n].info);
    EnterTriedKeepsCore(h, t, x);
    AddressesGrow(t.info, t.idCount, x.(inTried := true, randomPos := |t.random|), input, n);
  }

  /** One that is lost. */
  lemma SaneLose(h: Hasher, t: State, input: seq<Token>, n: nat)
    requires Sane(h, t, input, n)
    ensures Sane(h, t, input, n + 1)
  {
    assert SaneBy(h, t, input, n, Structure) && SaneBy(h, t, input, n, Origins) && SaneBy(h, t, input, n, Kinds);
    forall k | k in t.info ensures IpAmong(input, n + 1, t.info[k].service.ip) {
      assert IpAmong(input, n, t.info[k].service.ip);
    }
  }

  lemma SanePlace(h: Hasher, t: State, input: seq<Token>, n: nat, id: int, sl: Slot)
    requires Sane(h, t, input, n) && id in t.info && id < t.nNew && t.info[id].refCount < NEW_BUCKETS_PER_ADDRESS
    requires sl !in t.new_ && sl.bucket < NEW_BUCKET_COUNT && sl == h.NewSlotIn(t.key, sl.bucket, t.info[id].service)
    ensures Sane(h, Place(t, id, sl), input, n)
  {
    assert SaneBy(h, t, input, n, Structure) && SaneBy(h, t, input, n, Origins) && SaneBy(h, t, input, n, Kinds);
    PlaceKeepsLoose(h, t, id, sl);
    forall k | k in Place(t, id, sl).info ensures IpAmong(input, n, Place(t, id, sl).info[k].service.ip) {
      assert IpAmong(input, n, t.info[k].service.ip);
    }
  }
}
