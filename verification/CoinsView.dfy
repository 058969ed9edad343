/**
 The layered coin views (src/coins.cpp, src/txdb.cpp) as values: caches stacked on a
 database.  Each operation is a function on stacks, `Good` is what the FRESH and DIRTY
 flags promise, and a run of operations is shown to agree with a stack of plain maps.
 CoinsCache.dfy has the caches as objects.
 */
module CoinsView {
  import opened Coins

  type Txid = nat
  /** A block hash; 0 is the null hash. */
  type BlockHash = nat

  datatype Entry = Entry(coins: Coins, isDirty: bool, isFresh: bool)

  datatype View =
    | Db(coins: map<Txid, Coins>, best: BlockHash)
    | Layer(entries: map<Txid, Entry>, best: BlockHash, base: View)

  /** GetCoins, without its effect on the caches. */
  function Lookup(v: View, id: Txid): Option<Coins> {
    match v
    case Db(coins, _) => if id in coins then Some(coins[id]) else None
    case Layer(entries, _, base) => if id in entries then Some(entries[id].coins) else Lookup(base, id)
  }

  /** What a user of the view sees: fully spent is as good as absent. */
  function Unspent(v: View, id: Txid): Option<Coins> {
    Visible(Lookup(v, id))
  }

  /** Whether a view has its own entry: a database answers for itself. */
  predicate Has(v: View, id: Txid) {
    v.Db? || id in v.entries
  }

  /** FetchCoins: pull an entry up through all layers. */
  function Fetch(v: View, id: Txid): View {
    match v
    case Db(_, _) => v
    case Layer(entries, best, base) =>
      if id in entries then v
      else
        var base' := Fetch(base, id);
        match Lookup(base, id)
        case None => Layer(entries, best, base')
        case Some(c) => Layer(entries[id := Entry(c, false, IsPruned(c))], best, base')
  }

  /** ModifyCoins: make the entry the caller is going to change. */
  function Begin(v: View, id: Txid): View
    requires v.Layer?
  {
    if id in v.entries then v.(entries := v.entries[id := v.entries[id].(isDirty := true)])
    else
      var c := Lookup(v.base, id);
      Layer(v.entries[id := Entry(if c.Some? then c.value else EMPTY, true, c.None? || IsPruned(c.value))],
            v.best, Fetch(v.base, id))
  }

  /** ~CCoinsModifier, after the caller left `coins` in the entry. */
  function Finish(v: View, id: Txid, coins: Coins): View
    requires v.Layer? && id in v.entries
  {
    if v.entries[id].isFresh && IsPruned(Cleaned(coins)) then v.(entries := v.entries - {id})
    else v.(entries := v.entries[id := v.entries[id].(coins := Cleaned(coins))])
  }

  function Modify(v: View, id: Txid, coins: Coins): View
    requires v.Layer?
  {
    Finish(Begin(v, id), id, coins)
  }

  // BatchWrite, entry by entry.

  function Get<T>(m: map<Txid, T>, id: Txid): Option<T> {
    if id in m then Some(m[id]) else None
  }

  function MergeEntry(ours: Option<Entry>, theirs: Option<Entry>): Option<Entry> {
    if theirs.None? || !theirs.value.isDirty then ours
    else if ours.None? then
      if IsPruned(theirs.value.coins) then None else Some(Entry(theirs.value.coins, true, true))
    else
      if ours.value.isFresh && IsPruned(theirs.value.coins) then None
      else Some(Entry(theirs.value.coins, true, ours.value.isFresh))
  }

  function WriteEntry(ours: Option<Coins>, theirs: Option<Entry>): Option<Coins> {
    if theirs.None? || !theirs.value.isDirty then ours
    else if IsPruned(theirs.value.coins) then None
    else Some(theirs.value.coins)
  }

  ghost predicate Merged(ours: map<Txid, Entry>, theirs: map<Txid, Entry>, result: map<Txid, Entry>) {
    forall id: Txid :: Get(result, id) == MergeEntry(Get(ours, id), Get(theirs, id))
  }

  ghost predicate Written(ours: map<Txid, Coins>, theirs: map<Txid, Entry>, result: map<Txid, Coins>) {
    forall id: Txid :: Get(result, id) == WriteEntry(Get(ours, id), Get(theirs, id))
  }

  /** BatchWrite of a cache takes any block hash; that of the database keeps its own if there is none. */
  ghost predicate BatchWritten(v: View, changes: map<Txid, Entry>, hash: BlockHash, v': View) {
    match v
    case Db(coins, best) => v'.Db? && Written(coins, changes, v'.coins) && v'.best == if hash == 0 then best else hash
    case Layer(entries, _, base) => v'.Layer? && Merged(entries, changes, v'.entries) && v'.best == hash && v'.base == base
  }

  ghost predicate Flushed(v: View, v': View)
    requires v.Layer?
  {
    v'.Layer? && v'.entries == map[] && v'.best == v.best && BatchWritten(v.base, v.entries, v.best, v'.base)
  }

  // ---------------------------------------------------------------------------
  // What the flags mean.

  ghost predicate EntryOk(e: Entry, base: View, id: Txid) {
    && Trimmed(e.coins.vout)
    && (e.isFresh ==> Unspent(base, id) == None)
    && (!e.isFresh ==> Has(base, id))
    && (!e.isDirty ==> Lookup(base, id) == Some(e.coins))
  }

  ghost predicate Good(v: View) {
    match v
    case Db(coins, _) => forall id :: id in coins ==> Trimmed(coins[id].vout)
    case Layer(entries, _, base) => Good(base) && forall id :: id in entries ==> EntryOk(entries[id], base, id)
  }

  lemma {:induction false} LookupIsTrimmed(v: View, id: Txid)
    requires Good(v)
    ensures Lookup(v, id).Some? ==> Trimmed(Lookup(v, id).value.vout)
  {
    if v.Layer? && id !in v.entries {
      LookupIsTrimmed(v.base, id);
    } else if v.Layer? {
      assert EntryOk(v.entries[id], v.base, id);
    }
  }

  // ---------------------------------------------------------------------------
  // Fetching.

  /** v' answers like v and has at least its entries, so what stands on v can stand on v'. */
  ghost predicate Extends(v: View, v': View) {
    && (forall id: Txid :: Lookup(v', id) == Lookup(v, id))
    && (forall id: Txid :: Has(v, id) ==> Has(v', id))
  }

  /** A cache can stand on any such view, with any block hash of its own. */
  lemma RebaseKeepsGood(v: View, best: BlockHash, base: View)
    requires Good(v) && v.Layer? && Good(base) && Extends(v.base, base)
    ensures Good(Layer(v.entries, best, base)) && Extends(v, Layer(v.entries, best, base))
  {
    var v' := Layer(v.entries, best, base);
    forall id | id in v.entries ensures EntryOk(v.entries[id], base, id) {
      assert EntryOk(v.entries[id], v.base, id);
    }
    forall id: Txid ensures Has(v, id) ==> Has(v', id) {
    }
    forall id: Txid ensures Lookup(v', id) == Lookup(v, id) {
    }
  }

  lemma ExtendsShows(v: View, v': View, m: map<Txid, Coins>)
    requires Extends(v, v') && Shows(v, m)
    ensures Shows(v', m)
  {
    forall id: Txid ensures Unspent(v', id) == Get(m, id) {
      assert Lookup(v', id) == Lookup(v, id);
    }
  }

  lemma {:induction false} FetchExtends(v: View, id: Txid)
    requires Good(v)
    ensures Good(Fetch(v, id)) && Extends(v, Fetch(v, id)) && Fetch(v, id).best == v.best
    ensures Lookup(v, id).Some? ==> Has(Fetch(v, id), id)
  {
    if v.Layer? && id !in v.entries {
      FetchExtends(v.base, id);
      RebaseKeepsGood(v, v.best, Fetch(v.base, id));
      LookupIsTrimmed(v.base, id);
      var v' := Fetch(v, id);
      forall x | x in v'.entries ensures EntryOk(v'.entries[x], v'.base, x) {
        assert x != id ==> EntryOk(v.entries[x], v.base, x);
      }
      forall x: Txid ensures Has(v, x) ==> Has(v', x) {
      }
    }
  }

  // ---------------------------------------------------------------------------
  // Modifying.

  /** Making the entry shows nothing: a missing one is made fully spent. */
  lemma BeginKeeps(v: View, id: Txid)
    requires Good(v) && v.Layer?
    ensures Good(Begin(v, id)) && id in Begin(v, id).entries && Extends(v.base, Begin(v, id).base)
    ensures forall x: Txid :: Unspent(Begin(v, id), x) == Unspent(v, x)
  {
    var v' := Begin(v, id);
    FetchExtends(v.base, id);
    LookupIsTrimmed(v.base, id);
    if id in v.entries {
      assert v'.base == v.base;
    }
    forall x | x in v'.entries ensures EntryOk(v'.entries[x], v'.base, x) {
      assert x in v.entries ==> EntryOk(v.entries[x], v.base, x);
    }
    forall x: Txid ensures Unspent(v', x) == Unspent(v, x) {
      assert x !in v'.entries ==> Lookup(v', x) == Lookup(v'.base, x) == Lookup(v.base, x);
    }
  }

  /** What ModifyCoins hands out is what the view shows, up to the equality of coins. */
  lemma BeginHandsOut(v: View, id: Txid)
    requires Good(v) && v.Layer?
    ensures id in Begin(v, id).entries
    ensures Visible(Some(Begin(v, id).entries[id].coins)) == Unspent(v, id)
  {
    BeginKeeps(v, id);
  }

  lemma FinishUpdates(v: View, id: Txid, coins: Coins)
    requires Good(v) && v.Layer? && id in v.entries && v.entries[id].isDirty
    ensures Good(Finish(v, id, coins)) && Finish(v, id, coins).base == v.base
    ensures Unspent(Finish(v, id, coins), id) == Visible(Some(Cleaned(coins)))
    ensures forall x: Txid :: x != id ==> Unspent(Finish(v, id, coins), x) == Unspent(v, x)
  {
    var v' := Finish(v, id, coins);
    assert EntryOk(v.entries[id], v.base, id);
    forall x | x in v'.entries ensures EntryOk(v'.entries[x], v'.base, x) {
      assert EntryOk(v.entries[x], v.base, x);
    }
  }

  lemma ModifyUpdates(v: View, id: Txid, coins: Coins)
    requires Good(v) && v.Layer?
    ensures Good(Modify(v, id, coins)) && Extends(v.base, Modify(v, id, coins).base)
    ensures Unspent(Modify(v, id, coins), id) == Visible(Some(Cleaned(coins)))
    ensures forall x: Txid :: x != id ==> Unspent(Modify(v, id, coins), x) == Unspent(v, x)
  {
    BeginKeeps(v, id);
    FinishUpdates(Begin(v, id), id, coins);
  }

  // ---------------------------------------------------------------------------
  // Flushing.

  /** The assertion in BatchWrite: a new unspent entry was marked fresh. */
  lemma FreshWhenMissing(v: View, id: Txid)
    requires Good(v) && v.Layer? && v.base.Layer? && id in v.entries && id !in v.base.entries
    ensures v.entries[id].isFresh
  {
    assert EntryOk(v.entries[id], v.base, id);
  }

  /** One entry of a parent cache after BatchWrite: it shows the child's and its flags still hold. */
  lemma MergeKeepsEntry(v: View, id: Txid, merged: Option<Entry>)
    requires Good(v) && v.Layer? && v.base.Layer?
    requires merged == MergeEntry(Get(v.base.entries, id), Get(v.entries, id))
    ensures merged.Some? ==> EntryOk(merged.value, v.base.base, id)
    ensures Visible(if merged.Some? then Some(merged.value.coins) else Lookup(v.base.base, id)) == Unspent(v, id)
  {
    if id in v.entries {
      assert EntryOk(v.entries[id], v.base, id);
    }
    if id in v.base.entries {
      assert EntryOk(v.base.entries[id], v.base.base, id);
      assert Lookup(v.base, id) == Some(v.base.entries[id].coins);
    } else {
      assert Lookup(v.base, id) == Lookup(v.base.base, id);
    }
  }

  lemma BatchWriteKeeps(v: View, base': View)
    requires Good(v) && v.Layer? && BatchWritten(v.base, v.entries, v.best, base')
    ensures Good(base')
    ensures forall id: Txid :: Unspent(base', id) == Unspent(v, id)
    ensures base'.Layer? == v.base.Layer? && (base'.Layer? ==> base'.base == v.base.base)
  {
    match v.base
    case Db(coins, _) =>
      forall id: Txid
        ensures id in base'.coins ==> Trimmed(base'.coins[id].vout)
        ensures Unspent(base', id) == Unspent(v, id)
      {
        assert Get(base'.coins, id) == WriteEntry(Get(coins, id), Get(v.entries, id));
        if id in v.entries {
          assert EntryOk(v.entries[id], v.base, id);
        }
        assert Lookup(v.base, id) == Get(coins, id);
        assert Lookup(base', id) == Get(base'.coins, id);
      }
    case Layer(entries, _, _) =>
      forall id: Txid
        ensures id in base'.entries ==> EntryOk(base'.entries[id], v.base.base, id)
        ensures Unspent(base', id) == Unspent(v, id)
      {
        assert Get(base'.entries, id) == MergeEntry(Get(entries, id), Get(v.entries, id));
        MergeKeepsEntry(v, id, Get(base'.entries, id));
      }
  }

  /** Flush shows the same before and after, in the cache and now also in its base. */
  lemma FlushKeeps(v: View, v': View)
    requires Good(v) && v.Layer? && Flushed(v, v')
    ensures Good(v')
    ensures forall id: Txid :: Unspent(v', id) == Unspent(v, id) == Unspent(v'.base, id)
  {
    BatchWriteKeeps(v, v'.base);
  }

  /** HaveCoins looks only at whether vout is empty; for cleaned-up coins that is the same question. */
  /** An entry that is fetched is clean, and fresh exactly if it is spent; one that is begun is dirty, and fresh exactly if nothing is unspent below. */
  lemma FlagsOfNewEntries(v: View, id: Txid)
    requires Good(v) && v.Layer? && id !in v.entries
    ensures id in Fetch(v, id).entries <==> Lookup(v.base, id).Some?
    ensures id in Fetch(v, id).entries ==> !Fetch(v, id).entries[id].isDirty
    ensures id in Fetch(v, id).entries ==> (Fetch(v, id).entries[id].isFresh <==> Unspent(v.base, id).None?)
    ensures id in Begin(v, id).entries && Begin(v, id).entries[id].isDirty
    ensures Begin(v, id).entries[id].isFresh <==> Unspent(v.base, id).None?
  {
  }

  /** The database holds nothing that is fully spent. */
  ghost predicate Clean(v: View) {
    v.Db? ==> forall id: Txid :: id in v.coins ==> !IsPruned(v.coins[id])
  }

  lemma WrittenIsClean(v: View, changes: map<Txid, Entry>, hash: BlockHash, v': View)
    requires Clean(v) && BatchWritten(v, changes, hash, v')
    ensures Clean(v')
    ensures v.Db? ==> forall id: Txid :: id in v'.coins <==>
      if id in changes && changes[id].isDirty then !IsPruned(changes[id].coins) else id in v.coins
  {
    if v.Db? {
      forall id: Txid
        ensures id in v'.coins <==> if id in changes && changes[id].isDirty then !IsPruned(changes[id].coins) else id in v.coins
        ensures id in v'.coins ==> !IsPruned(v'.coins[id])
      {
        assert Get(v'.coins, id) == WriteEntry(Get(v.coins, id), Get(changes, id));
      }
    }
  }

  /** What is fresh and ends fully spent is forgotten, at the end of a modification and in a merge. */
  lemma SpentFreshIsForgotten(v: View, id: Txid, coins: Coins, theirs: Entry)
    requires v.Layer? && id in v.entries && v.entries[id].isFresh && IsPruned(Cleaned(coins))
    requires theirs.isDirty && IsPruned(theirs.coins)
    ensures id !in Finish(v, id, coins).entries
    ensures MergeEntry(Some(v.entries[id]), Some(theirs)) == None && MergeEntry(None, Some(theirs)) == None
  {
  }

  lemma HaveCoinsIsUnspent(v: View, id: Txid)
    requires Good(v)
    ensures (Lookup(v, id).Some? && Lookup(v, id).value.vout != []) <==> Unspent(v, id).Some?
  {
    LookupIsTrimmed(v, id);
    if Lookup(v, id).Some? {
      TrimmedIsPrunedIffEmpty(Lookup(v, id).value);
    }
  }

  // ---------------------------------------------------------------------------
  // The best block.

  function Best(v: View): BlockHash {
    match v
    case Db(_, best) => best
    case Layer(_, best, base) => if best != 0 then best else Best(base)
  }

  /** GetBestBlock: remember the answer in every layer that had none. */
  function CacheBest(v: View): View {
    if v.Layer? && v.best == 0 then v.(best := Best(v.base), base := CacheBest(v.base)) else v
  }

  lemma {:induction false} CacheBestKeeps(v: View)
    requires Good(v)
    ensures Best(CacheBest(v)) == Best(v) && Extends(v, CacheBest(v)) && Good(CacheBest(v))
    ensures v.Layer? ==> CacheBest(v).Layer? && CacheBest(v).entries == v.entries
    ensures v.Db? ==> CacheBest(v) == v
  {
    if v.Layer? && v.best == 0 {
      CacheBestKeeps(v.base);
      RebaseKeepsGood(v, Best(v.base), CacheBest(v.base));
    }
  }

  /** Whether a flush without a block hash of its own would wipe one that matters in the parent cache. */
  predicate WipesParentBest(v: View)
    requires v.Layer?
  {
    v.best == 0 && v.base.Layer? && v.base.best != 0 && v.base.best != Best(v.base.base)
  }

  /** Flush keeps the best block exactly unless it wipes the parent's. */
  lemma FlushKeepsBestIff(v: View, v': View)
    requires v.Layer? && Flushed(v, v')
    ensures Best(v') == Best(v) <==> !WipesParentBest(v)
  {
  }

  /** A parent cache at block 7 over a database at block 3, and a child that never asked for it. */
  lemma FlushCanLoseBest(v': View)
    requires Flushed(Layer(map[], 0, Layer(map[], 7, Db(map[], 3))), v')
    ensures Best(Layer(map[], 0, Layer(map[], 7, Db(map[], 3)))) == 7 && Best(v') == 3
  {
    assert Best(v') == Best(v'.base) == Best(v'.base.base);
  }

  /** A cache that has asked for its best block, or been told one, keeps it. */
  lemma KnownBestSurvivesFlush(v: View, v': View)
    requires v.Layer? && Best(v) != 0 && Flushed(CacheBest(v), v')
    ensures Best(v') == Best(v)
  {
  }

  // ---------------------------------------------------------------------------
  // Runs, against a stack of plain maps.

  datatype Op =
    | FetchAt(depth: nat, id: Txid)        // read through any level
    | ModifyTop(id: Txid, coins: Coins)    // leave `coins` in an entry of the top cache
    | FlushTop
    | Push                                 // a new cache on top
    | Pop                                  // drop the top cache
    | SetBest(hash: BlockHash)
    | GetBestAt(depth: nat)

  function Depth(v: View): nat {
    if v.Layer? then 1 + Depth(v.base) else 0
  }

  function FetchDeep(v: View, d: nat, id: Txid): View {
    if d == 0 || v.Db? then Fetch(v, id) else v.(base := FetchDeep(v.base, d - 1, id))
  }

  function CacheBestDeep(v: View, d: nat): View {
    if d == 0 || v.Db? then CacheBest(v) else v.(base := CacheBestDeep(v.base, d - 1))
  }

  /** One operation; only the top of the stack is changed. */
  ghost predicate Next(v: View, op: Op, v': View) {
    match op
    case FetchAt(d, id) => v' == FetchDeep(v, d, id)
    case ModifyTop(id, coins) => v.Layer? && v' == Modify(v, id, coins)
    case FlushTop => v.Layer? && Flushed(v, v')
    case Push => v' == Layer(map[], 0, v)
    case Pop => v.Layer? && v' == v.base
    case SetBest(hash) => v.Layer? && v' == v.(best := hash)
    case GetBestAt(d) => v' == CacheBestDeep(v, d)
  }

  function Put(m: map<Txid, Coins>, id: Txid, coins: Coins): map<Txid, Coins> {
    if IsPruned(Cleaned(coins)) then m - {id} else m[id := Cleaned(coins)]
  }

  /** The same operation on plain maps of unspent coins, the top one first. */
  function NextFlat(maps: seq<map<Txid, Coins>>, op: Op): seq<map<Txid, Coins>>
    requires maps != [] && (op.ModifyTop? || op.FlushTop? || op.Pop? ==> |maps| > 1)
  {
    match op
    case ModifyTop(id, coins) => maps[0 := Put(maps[0], id, coins)]
    case FlushTop => maps[1 := maps[0]]
    case Push => [maps[0]] + maps
    case Pop => maps[1..]
    case _ => maps
  }

  ghost predicate Shows(v: View, m: map<Txid, Coins>) {
    forall id: Txid :: Unspent(v, id) == Get(m, id)
  }

  /** Every level shows its map. */
  ghost predicate Agrees(v: View, maps: seq<map<Txid, Coins>>) {
    maps != [] && Shows(v, maps[0]) && if v.Layer? then Agrees(v.base, maps[1..]) else |maps| == 1
  }

  lemma {:induction false} FetchAgrees(v: View, id: Txid, maps: seq<map<Txid, Coins>>)
    requires Good(v) && Agrees(v, maps)
    ensures Agrees(Fetch(v, id), maps)
  {
    FetchExtends(v, id);
    if v.Layer? && id !in v.entries {
      FetchAgrees(v.base, id, maps[1..]);
    }
  }

  lemma {:induction false} FetchDeepAgrees(v: View, d: nat, id: Txid, maps: seq<map<Txid, Coins>>)
    requires Good(v) && Agrees(v, maps)
    ensures Good(FetchDeep(v, d, id)) && Extends(v, FetchDeep(v, d, id)) && Agrees(FetchDeep(v, d, id), maps)
  {
    if d == 0 || v.Db? {
      FetchExtends(v, id);
      FetchAgrees(v, id, maps);
    } else {
      FetchDeepAgrees(v.base, d - 1, id, maps[1..]);
      RebaseKeepsGood(v, v.best, FetchDeep(v.base, d - 1, id));
      ExtendsShows(v, FetchDeep(v, d, id), maps[0]);
    }
  }

  lemma {:induction false} CacheBestAgrees(v: View, maps: seq<map<Txid, Coins>>)
    requires Good(v) && Agrees(v, maps)
    ensures Agrees(CacheBest(v), maps)
  {
    CacheBestKeeps(v);
    if v.Layer? && v.best == 0 {
      CacheBestAgrees(v.base, maps[1..]);
    }
  }

  lemma {:induction false} CacheBestDeepAgrees(v: View, d: nat, maps: seq<map<Txid, Coins>>)
    requires Good(v) && Agrees(v, maps)
    ensures Good(CacheBestDeep(v, d)) && Extends(v, CacheBestDeep(v, d)) && Agrees(CacheBestDeep(v, d), maps)
  {
    if d == 0 || v.Db? {
      CacheBestKeeps(v);
      CacheBestAgrees(v, maps);
    } else {
      CacheBestDeepAgrees(v.base, d - 1, maps[1..]);
      RebaseKeepsGood(v, v.best, CacheBestDeep(v.base, d - 1));
      ExtendsShows(v, CacheBestDeep(v, d), maps[0]);
    }
  }

  lemma {:induction false} AgreesDepth(v: View, maps: seq<map<Txid, Coins>>)
    requires Agrees(v, maps)
    ensures |maps| == Depth(v) + 1
  {
    if v.Layer? {
      AgreesDepth(v.base, maps[1..]);
    }
  }

  lemma ModifyAgrees(v: View, id: Txid, coins: Coins, maps: seq<map<Txid, Coins>>)
    requires Good(v) && v.Layer? && Agrees(v, maps)
    ensures Good(Modify(v, id, coins)) && Agrees(Modify(v, id, coins), maps[0 := Put(maps[0], id, coins)])
  {
    ModifyUpdates(v, id, coins);
    var maps' := maps[0 := Put(maps[0], id, coins)];
    assert maps'[1..] == maps[1..];
    FetchAgrees(v.base, id, maps[1..]);
  }

  lemma FlushAgrees(v: View, v': View, maps: seq<map<Txid, Coins>>)
    requires Good(v) && v.Layer? && Flushed(v, v') && Agrees(v, maps) && |maps| > 1
    ensures Good(v') && Agrees(v', maps[1 := maps[0]])
  {
    FlushKeeps(v, v');
    BatchWriteKeeps(v, v'.base);
    var maps' := maps[1 := maps[0]];
    assert maps'[1..][0] == maps[0] && maps'[1..][1..] == maps[1..][1..];
  }

  /** Every operation keeps the flags' promises and the agreement with the plain maps. */
  lemma StepAgrees(v: View, op: Op, v': View, maps: seq<map<Txid, Coins>>)
    requires Good(v) && Agrees(v, maps) && Next(v, op, v')
    ensures op.ModifyTop? || op.FlushTop? || op.Pop? ==> |maps| > 1
    ensures Good(v') && Agrees(v', NextFlat(maps, op))
  {
    AgreesDepth(v, maps);
    match op
    case FetchAt(d, id) => FetchDeepAgrees(v, d, id, maps);
    case ModifyTop(id, coins) => ModifyAgrees(v, id, coins, maps);
    case FlushTop => FlushAgrees(v, v', maps);
    case Push => assert ([maps[0]] + maps)[1..] == maps;
    case Pop =>
    case SetBest(hash) => RebaseKeepsGood(v, hash, v.base);
    case GetBestAt(d) => CacheBestDeepAgrees(v, d, maps);
  }

  /** A run: views[i] becomes views[i + 1] by ops[i]. */
  ghost predicate IsRun(views: seq<View>, ops: seq<Op>) {
    |views| == |ops| + 1 && forall i :: 0 <= i < |ops| ==> Next(views[i], ops[i], views[i + 1])
  }

  /** The plain maps after the first n operations. */
  ghost function FlatRun(views: seq<View>, ops: seq<Op>, maps: seq<map<Txid, Coins>>, n: nat): (r: seq<map<Txid, Coins>>)
    requires IsRun(views, ops) && n <= |ops| && Good(views[0]) && Agrees(views[0], maps)
    ensures Good(views[n]) && Agrees(views[n], r)
  {
    if n == 0 then maps
    else
      var before := FlatRun(views, ops, maps, n - 1);
      assert Next(views[n - 1], ops[n - 1], views[n]);
      StepAgrees(views[n - 1], ops[n - 1], views[n], before);
      NextFlat(before, ops[n - 1])
  }

  /** Started on any database, whose maps show what it holds. */
  lemma DatabaseAgrees(coins: map<Txid, Coins>, best: BlockHash)
    requires forall id :: id in coins ==> Trimmed(coins[id].vout) && !IsPruned(coins[id])
    ensures Good(Db(coins, best)) && Agrees(Db(coins, best), [coins])
  {
  }
}
