/**
 CCoinsViewCache in place (src/coins.cpp): caches that point at their base, a database
 at the bottom.  Every method is proved against the operations of CoinsView, and the
 running memory total against the sum over the entries.
 */
module CoinsCache {
  import opened Coins
  import opened CoinsView

  /** The memory of all entries, by any measure of one. */
  ghost function Total(m: map<Txid, Entry>, size: Coins -> nat): nat
    decreases |m|
  {
    if m == map[] then 0
    else
      var id :| id in m;
      size(m[id].coins) + Total(m - {id}, size)
  }

  lemma {:induction false} TotalSplits(m: map<Txid, Entry>, size: Coins -> nat, id: Txid)
    requires id in m
    ensures Total(m, size) == size(m[id].coins) + Total(m - {id}, size)
    decreases |m|
  {
    var x :| x in m && Total(m, size) == size(m[x].coins) + Total(m - {x}, size);
    if x != id {
      TotalSplits(m - {x}, size, id);
      TotalSplits(m - {id}, size, x);
      assert m - {x} - {id} == m - {id} - {x};
    }
  }

  lemma TotalUpdates(m: map<Txid, Entry>, size: Coins -> nat, id: Txid, e: Entry)
    ensures Total(m[id := e], size) == size(e.coins) + Total(m - {id}, size)
    ensures id !in m ==> m - {id} == m
    ensures id in m ==> Total(m, size) == size(m[id].coins) + Total(m - {id}, size)
  {
    TotalSplits(m[id := e], size, id);
    assert m[id := e] - {id} == m - {id};
    if id in m {
      TotalSplits(m, size, id);
    }
  }

  /** The changes still to be written are part of all. */
  ghost predicate PartOf(rest: map<Txid, Entry>, changes: map<Txid, Entry>) {
    forall x: Txid :: x in rest ==> x in changes && rest[x] == changes[x]
  }

  /** All changes but the rest are merged in. */
  ghost predicate MergedBut(before: map<Txid, Entry>, changes: map<Txid, Entry>, rest: map<Txid, Entry>, now: map<Txid, Entry>) {
    PartOf(rest, changes) &&
    forall x: Txid :: Get(now, x) == MergeEntry(Get(before, x), if x in rest then None else Get(changes, x))
  }

  lemma MergedOneMore(before: map<Txid, Entry>, changes: map<Txid, Entry>, rest: map<Txid, Entry>,
                      now: map<Txid, Entry>, id: Txid, now': map<Txid, Entry>)
    requires MergedBut(before, changes, rest, now) && id in rest
    requires Get(now', id) == MergeEntry(Get(now, id), Some(rest[id]))
    requires forall x: Txid :: x != id ==> Get(now', x) == Get(now, x)
    ensures MergedBut(before, changes, rest - {id}, now')
  {
    forall x: Txid ensures Get(now', x) == MergeEntry(Get(before, x), if x in rest - {id} then None else Get(changes, x)) {
      assert Get(now, x) == MergeEntry(Get(before, x), if x in rest then None else Get(changes, x));
    }
  }

  /** All changes but the rest are written. */
  ghost predicate WrittenBut(before: map<Txid, Coins>, changes: map<Txid, Entry>, rest: map<Txid, Entry>, now: map<Txid, Coins>) {
    PartOf(rest, changes) &&
    forall x: Txid :: Get(now, x) == WriteEntry(Get(before, x), if x in rest then None else Get(changes, x))
  }

  lemma WrittenOneMore(before: map<Txid, Coins>, changes: map<Txid, Entry>, rest: map<Txid, Entry>,
                       now: map<Txid, Coins>, id: Txid, now': map<Txid, Coins>)
    requires WrittenBut(before, changes, rest, now) && id in rest
    requires Get(now', id) == WriteEntry(Get(now, id), Some(rest[id]))
    requires forall x: Txid :: x != id ==> Get(now', x) == Get(now, x)
    ensures WrittenBut(before, changes, rest - {id}, now')
  {
    forall x: Txid ensures Get(now', x) == WriteEntry(Get(before, x), if x in rest - {id} then None else Get(changes, x)) {
      assert Get(now, x) == WriteEntry(Get(before, x), if x in rest then None else Get(changes, x));
    }
  }

  /** CCoinsViewDB: the database at the bottom. */
  class Database {
    var coins: map<Txid, Coins>
    var best: BlockHash

    ghost function Value(): View
      reads this
    {
      Db(coins, best)
    }

    method GetCoins(id: Txid) returns (r: Option<Coins>)
      ensures r == Lookup(Value(), id)
    {
      r := if id in coins then Some(coins[id]) else None;
    }

    /** Walks the changes in any order. */
    method BatchWrite(mapCoins: map<Txid, Entry>, hash: BlockHash)
      modifies this
      ensures BatchWritten(old(Value()), mapCoins, hash, Value())
    {
      var rest := mapCoins;
      while rest != map[]
        invariant WrittenBut(old(coins), mapCoins, rest, coins) && best == old(best)
        decreases |rest|
      {
        var id :| id in rest;
        ghost var before := coins;
        if rest[id].isDirty {
          if IsPruned(rest[id].coins) {
            coins := coins - {id};
          } else {
            coins := coins[id := rest[id].coins];
          }
        }
        WrittenOneMore(old(coins), mapCoins, rest, before, id, coins);
        rest := rest - {id};
      }
      if hash != 0 {
        best := hash;
      }
    }
  }

  class Cache {
    const base: Cache?
    const db: Database
    const size: Coins -> nat
    ghost const depth: nat
    ghost const views: set<object>

    var hasModifier: bool
    var hashBlock: BlockHash
    var cacheCoins: map<Txid, Entry>
    var cachedCoinsUsage: int
    /** What cachedCoinsUsage lacks while an entry is being modified. */
    ghost var gap: int

    ghost predicate Stacked()
      decreases depth
    {
      && this in views && db in views
      && if base == null then views == {this, db}
         else
           && base.depth < depth && base.db == db && this !in base.views && views == base.views + {this}
           && base.Stacked()
    }

    ghost function Value(): View
      requires Stacked()
      reads views
      decreases depth
    {
      Layer(cacheCoins, hashBlock, BaseValue())
    }

    ghost function BaseValue(): View
      requires Stacked()
      reads if base == null then {db} else base.views
      decreases depth, 0
    {
      if base == null then db.Value() else base.Value()
    }

    /** The running total is exact, in every layer, up to an entry that is being modified. */
    ghost predicate Accounts()
      requires Stacked()
      reads views
      decreases depth
    {
      && cachedCoinsUsage + gap == Total(cacheCoins, size) && (!hasModifier ==> gap == 0)
      && (base != null ==> base.Accounts())
    }

    /** Which layers have a modifier, from this one down. */
    ghost function Modifiers(): (m: seq<bool>)
      requires Stacked()
      reads views
      ensures |m| > 0 && m[0] == hasModifier
      decreases depth
    {
      [hasModifier] + BaseModifiers()
    }

    ghost function BaseModifiers(): seq<bool>
      requires Stacked()
      reads if base == null then {} else base.views
      decreases depth, 0
    {
      if base == null then [] else base.Modifiers()
    }

    lemma SecondModifier()
      requires Stacked() && base != null
      ensures |Modifiers()| > 1 && Modifiers()[1] == base.hasModifier
    {
      assert Modifiers() == [hasModifier] + base.Modifiers();
    }

    constructor (base: Cache?, db: Database, size: Coins -> nat)
      requires base != null ==> base.Stacked() && base.Accounts() && base.db == db
      ensures Stacked() && Accounts() && !hasModifier
      ensures this.base == base && this.db == db && this.size == size && fresh(this)
      ensures views == (if base == null then {db} else base.views) + {this}
      ensures Modifiers() == [false] + if base == null then [] else base.Modifiers()
      ensures Value() == Layer(map[], 0, if base == null then db.Value() else base.Value())
    {
      this.base, this.db, this.size := base, db, size;
      hasModifier, hashBlock, cacheCoins, cachedCoinsUsage, gap := false, 0, map[], 0, 0;
      depth := if base == null then 0 else base.depth + 1;
      views := (if base == null then {db} else base.views) + {this};
    }

    /** FetchCoins; the result says whether there is an entry now. */
    method FetchCoins(id: Txid) returns (found: bool)
      requires Stacked() && Accounts()
      modifies views
      ensures Value() == Fetch(old(Value()), id) && Accounts()
      ensures found == (id in cacheCoins) == Lookup(old(Value()), id).Some?
      ensures found ==> cacheCoins[id].coins == Lookup(old(Value()), id).value
      ensures Modifiers() == old(Modifiers()) && gap == old(gap)
      decreases depth, 1
    {
      if id in cacheCoins {
        return true;
      }
      var tmp := BaseGetCoins(id);
      if tmp.None? {
        return false;
      }
      TotalUpdates(cacheCoins, size, id, Entry(tmp.value, false, IsPruned(tmp.value)));
      cacheCoins := cacheCoins[id := Entry(tmp.value, false, IsPruned(tmp.value))];
      cachedCoinsUsage := cachedCoinsUsage + size(tmp.value);
      found := true;
    }

    /** base->GetCoins. */
    method BaseGetCoins(id: Txid) returns (r: Option<Coins>)
      requires Stacked() && Accounts()
      modifies if base == null then {} else base.views
      ensures r == Lookup(old(BaseValue()), id) && BaseValue() == Fetch(old(BaseValue()), id) && Accounts()
      ensures BaseModifiers() == old(BaseModifiers())
      decreases depth, 0
    {
      if base == null {
        r := db.GetCoins(id);
      } else {
        var found := base.FetchCoins(id);
        r := if found then Some(base.cacheCoins[id].coins) else None;
      }
    }

    method GetCoins(id: Txid) returns (r: Option<Coins>)
      requires Stacked() && Accounts()
      modifies views
      ensures Value() == Fetch(old(Value()), id) && Accounts()
      ensures r == Lookup(old(Value()), id)
      ensures Modifiers() == old(Modifiers()) && gap == old(gap)
    {
      var found := FetchCoins(id);
      r := if found then Some(cacheCoins[id].coins) else None;
    }

    method HaveCoins(id: Txid) returns (r: bool)
      requires Stacked() && Accounts() && Good(Value())
      modifies views
      ensures Value() == Fetch(old(Value()), id) && Accounts()
      ensures r == Unspent(old(Value()), id).Some?
      ensures Modifiers() == old(Modifiers()) && gap == old(gap)
    {
      HaveCoinsIsUnspent(Value(), id);
      var found := FetchCoins(id);
      r := found && cacheCoins[id].coins.vout != [];
    }

    /** An entry that was not cached, taken from the base; it is not yet in the total. */
    method EnterFromBase(id: Txid) returns (handed: Coins)
      requires Stacked() && Accounts() && !hasModifier && id !in cacheCoins
      modifies views
      ensures Value() == Begin(old(Value()), id) && Accounts() && hasModifier && BaseModifiers() == old(BaseModifiers())
      ensures id in cacheCoins && handed == cacheCoins[id].coins && gap == size(handed)
    {
      var coins := BaseGetCoins(id);
      handed := if coins.Some? then coins.value else EMPTY;
      TotalUpdates(cacheCoins, size, id, Entry(handed, true, coins.None? || IsPruned(coins.value)));
      cacheCoins := cacheCoins[id := Entry(handed, true, coins.None? || IsPruned(coins.value))];
      gap := size(handed);
      hasModifier := true;
    }

    /** ModifyCoins: hands out the coins to change and what they weighed in the total. */
    method ModifyCoins(id: Txid) returns (handed: Coins, cachedCoinUsage: nat)
      requires Stacked() && Accounts() && !hasModifier
      modifies views
      ensures Value() == Begin(old(Value()), id) && Accounts() && hasModifier && BaseModifiers() == old(BaseModifiers())
      ensures id in cacheCoins && handed == cacheCoins[id].coins && cachedCoinUsage + gap == size(handed)
    {
      if id !in cacheCoins {
        handed := EnterFromBase(id);
        cachedCoinUsage := 0;
      } else {
        handed := cacheCoins[id].coins;
        cachedCoinUsage := size(handed);
        TotalUpdates(cacheCoins, size, id, cacheCoins[id].(isDirty := true));
        cacheCoins := cacheCoins[id := cacheCoins[id].(isDirty := true)];
        hasModifier := true;
      }
    }

    /** ~CCoinsModifier, once the caller has left `coins` in the entry. */
    method EndModify(id: Txid, coins: Coins, cachedCoinUsage: nat)
      requires Stacked() && Accounts() && hasModifier && id in cacheCoins
      requires cachedCoinUsage + gap == size(cacheCoins[id].coins)
      modifies this
      ensures Value() == Finish(old(Value()), id, coins) && Accounts() && !hasModifier
    {
      hasModifier := false;
      var cleaned := Cleanup(coins);
      cachedCoinsUsage := cachedCoinsUsage - cachedCoinUsage;
      TotalUpdates(cacheCoins, size, id, cacheCoins[id].(coins := cleaned));
      if cacheCoins[id].isFresh && IsPruned(cleaned) {
        cacheCoins := cacheCoins - {id};
      } else {
        cacheCoins := cacheCoins[id := cacheCoins[id].(coins := cleaned)];
        cachedCoinsUsage := cachedCoinsUsage + size(cleaned);
      }
      gap := 0;
    }

    method GetBestBlock() returns (hash: BlockHash)
      requires Stacked() && Accounts()
      modifies views
      ensures Value() == CacheBest(old(Value())) && hash == Best(old(Value())) && Accounts()
      ensures Modifiers() == old(Modifiers()) && gap == old(gap)
      decreases depth
    {
      if hashBlock == 0 {
        if base == null {
          hashBlock := db.best;
        } else {
          hashBlock := base.GetBestBlock();
        }
      }
      hash := hashBlock;
    }

    /** One dirty entry of a child. */
    method Merge(id: Txid, theirs: Entry)
      requires Stacked() && Accounts() && theirs.isDirty
      requires id !in cacheCoins && !IsPruned(theirs.coins) ==> theirs.isFresh
      modifies this`cacheCoins, this`cachedCoinsUsage
      ensures Accounts()
      ensures Get(cacheCoins, id) == MergeEntry(Get(old(cacheCoins), id), Some(theirs))
      ensures forall x: Txid :: x != id ==> Get(cacheCoins, x) == Get(old(cacheCoins), x)
    {
      if id !in cacheCoins {
        if !IsPruned(theirs.coins) {
          assert theirs.isFresh;
          TotalUpdates(cacheCoins, size, id, Entry(theirs.coins, true, true));
          cacheCoins := cacheCoins[id := Entry(theirs.coins, true, true)];
          cachedCoinsUsage := cachedCoinsUsage + size(theirs.coins);
        }
      } else {
        var ours := cacheCoins[id];
        TotalUpdates(cacheCoins, size, id, Entry(theirs.coins, true, ours.isFresh));
        if ours.isFresh && IsPruned(theirs.coins) {
          cachedCoinsUsage := cachedCoinsUsage - size(ours.coins);
          cacheCoins := cacheCoins - {id};
        } else {
          cachedCoinsUsage := cachedCoinsUsage - size(ours.coins);
          cacheCoins := cacheCoins[id := Entry(theirs.coins, true, ours.isFresh)];
          cachedCoinsUsage := cachedCoinsUsage + size(theirs.coins);
        }
      }
    }

    /** Walks the child's entries in any order.  What its flags promise makes the assertion hold. */
    method MergeAll(mapCoins: map<Txid, Entry>)
      requires Stacked() && Accounts()
      requires forall id :: id in mapCoins && id !in cacheCoins ==> mapCoins[id].isFresh
      modifies this`cacheCoins, this`cachedCoinsUsage
      ensures MergedBut(old(cacheCoins), mapCoins, map[], cacheCoins) && Accounts()
    {
      var rest := mapCoins;
      while rest != map[]
        invariant MergedBut(old(cacheCoins), mapCoins, rest, cacheCoins) && Accounts()
        decreases |rest|
      {
        var id :| id in rest;
        assert Get(cacheCoins, id) == Get(old(cacheCoins), id);
        ghost var before := cacheCoins;
        if rest[id].isDirty {
          Merge(id, rest[id]);
        }
        MergedOneMore(old(cacheCoins), mapCoins, rest, before, id, cacheCoins);
        rest := rest - {id};
      }
    }

    method BatchWrite(mapCoins: map<Txid, Entry>, hash: BlockHash)
      requires Stacked() && Accounts() && !hasModifier
      requires forall id :: id in mapCoins && id !in cacheCoins ==> mapCoins[id].isFresh
      modifies this`cacheCoins, this`cachedCoinsUsage, this`hashBlock
      ensures BatchWritten(old(Value()), mapCoins, hash, Value()) && Accounts()
      ensures Modifiers() == old(Modifiers())
    {
      MergeAll(mapCoins);
      hashBlock := hash;
    }

    method Flush()
      requires Stacked() && Accounts() && Good(Value()) && !hasModifier
      requires base != null ==> !base.hasModifier
      modifies this, if base == null then {db as object} else {base as object}
      ensures Flushed(old(Value()), Value()) && Accounts() && cachedCoinsUsage == 0 && cacheCoins == map[]
      ensures Modifiers() == old(Modifiers())
    {
      ghost var v := Value();
      if base == null {
        db.BatchWrite(cacheCoins, hashBlock);
      } else {
        assert v.base == BaseValue() && BaseValue() == base.Value();
        assert base.Value() == Layer(base.cacheCoins, base.hashBlock, base.BaseValue());
        forall id | id in cacheCoins && id !in base.cacheCoins ensures cacheCoins[id].isFresh {
          FreshWhenMissing(v, id);
        }
        base.BatchWrite(cacheCoins, hashBlock);
      }
      cacheCoins := map[];
      cachedCoinsUsage := 0;
    }
  }

  /** A whole modification. */
  method ModifyThrough(c: Cache, id: Txid, coins: Coins)
    requires c.Stacked() && c.Accounts() && Good(c.Value()) && !c.hasModifier
    modifies c.views
    ensures c.Value() == Modify(old(c.Value()), id, coins) && Good(c.Value()) && c.Accounts()
    ensures c.Modifiers() == old(c.Modifiers())
  {
    ModifyUpdates(c.Value(), id, coins);
    var handed, usage := c.ModifyCoins(id);
    c.EndModify(id, coins, usage);
  }

  /** What the upper of two caches shows after a modification. */
  lemma ModifiedShows(start: View, id: Txid, coins: Coins)
    requires Good(start)
    ensures var v := Layer(map[], 0, Layer(map[], 0, start)); var m := Modify(v, id, coins);
            && Good(v) && Good(m) && Unspent(m, id) == Visible(Some(Cleaned(coins)))
            && forall x: Txid :: x != id ==> Unspent(m, x) == Unspent(start, x)
  {
    EmptyShows(start, 0);
    EmptyShows(Layer(map[], 0, start), 0);
    ModifyUpdates(Layer(map[], 0, Layer(map[], 0, start)), id, coins);
  }

  /** Read through a cache on a database, flush it, and read the database. */
  method ReadAndFlush(c: Cache, id: Txid) returns (seen: Option<Coins>, stored: Option<Coins>)
    requires c.base == null && c.Stacked() && c.Accounts() && Good(c.Value()) && !c.hasModifier
    modifies c.views
    ensures Visible(seen) == Unspent(old(c.Value()), id) == Visible(stored)
    ensures Good(c.db.Value()) && forall x: Txid :: Unspent(c.db.Value(), x) == Unspent(old(c.Value()), x)
  {
    FetchExtends(c.Value(), id);
    seen := c.GetCoins(id);
    ghost var v := c.Value();
    c.Flush();
    FlushKeeps(v, c.Value());
    assert c.Value() == Layer(c.cacheCoins, c.hashBlock, c.db.Value());
    stored := c.db.GetCoins(id);
    assert Visible(stored) == Unspent(c.db.Value(), id) == Unspent(v, id);
  }

  /** Two caches on a database: a modification in the upper one is seen in the lower one after a flush. */
  method ModifyAndFlush(db: Database, size: Coins -> nat, id: Txid, coins: Coins) returns (bottom: Cache)
    requires Good(db.Value())
    modifies db
    ensures fresh(bottom) && bottom.base == null && bottom.db == db && bottom.Stacked() && bottom.views == {bottom, db}
    ensures bottom.Accounts() && Good(bottom.Value()) && !bottom.hasModifier
    ensures Unspent(bottom.Value(), id) == Visible(Some(Cleaned(coins)))
    ensures forall x: Txid :: x != id ==> Unspent(bottom.Value(), x) == Unspent(old(db.Value()), x)
  {
    bottom := new Cache(null, db, size);
    var top := new Cache(bottom, db, size);
    ModifiedShows(db.Value(), id, coins);
    top.SecondModifier();
    ModifyThrough(top, id, coins);
    top.SecondModifier();
    ghost var m := top.Value();
    top.Flush();
    FlushKeeps(m, top.Value());
    top.SecondModifier();
    assert top.Value().base == bottom.Value();
  }

  method StackedUse(db: Database, size: Coins -> nat, id: Txid, coins: Coins) returns (seen: Option<Coins>, stored: Option<Coins>)
    requires Good(db.Value())
    modifies db
    ensures Visible(seen) == Visible(Some(Cleaned(coins))) == Visible(stored)
    ensures Good(db.Value()) && forall x: Txid :: x != id ==> Unspent(db.Value(), x) == Unspent(old(db.Value()), x)
  {
    var bottom := ModifyAndFlush(db, size, id, coins);
    seen, stored := ReadAndFlush(bottom, id);
  }

  /** An empty layer shows what is below it. */
  lemma EmptyShows(v: View, best: BlockHash)
    requires Good(v)
    ensures Good(Layer(map[], best, v)) && forall id: Txid :: Unspent(Layer(map[], best, v), id) == Unspent(v, id)
  {
  }
}
