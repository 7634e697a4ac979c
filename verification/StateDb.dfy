/**
  The state database: accounts with the storage slots known so far, over a chain that answers for all others.
  Pools are inserted as packed slots and read back from them.
*/
module StateDb {
  import opened Bits
  import opened Outcomes
  import opened PoolEncoding
  import opened Swaps
  import opened U256

  datatype InsertionType = Custom | OnChain

  datatype Slot = Slot(value: Word, insertionType: InsertionType)

  type Storage = map<Word, Slot>

  datatype Account<I> = Account(info: I, insertionType: InsertionType, storage: Storage)

  /** What the provider answers; a fixed total function. */
  datatype Chain<!I> = Chain(info: Address -> I, storage: (Address, Word) -> Word)

  /** An account's post-state in the trace of a transaction. */
  datatype Update = Update(address: Address, storage: map<Word, Word>)

  datatype V2Pool = V2Pool(address: Address, token0: Address, token1: Address, reserve0: Word, reserve1: Word)

  datatype V3Pool = V3Pool(
    address: Address,
    sqrtPrice: Word,
    tick: int,
    liquidity: nat,
    tickSpacing: int,
    ticks: map<int, int>,
    bitmap: map<int, Word>)

  /** The program's types: U160, i32, u128, i32, i32 to i128, i16 to U256. */
  predicate Typed(p: V3Pool) {
    && p.sqrtPrice < Pow2(160) && IsI32(p.tick) && p.liquidity < Pow2(128) && IsI32(p.tickSpacing)
    && (forall t :: t in p.ticks ==> IsI32(t) && FitsBits(p.ticks[t], 128))
    && (forall w :: w in p.bitmap ==> IsI16(w))
  }

  function Customs(m: map<Word, Word>): Storage {
    map s | s in m :: Slot(m[s], Custom)
  }

  /** The accounts after an update; an unknown account is left out. */
  function Merged<I>(accounts: map<Address, Account<I>>, address: Address, m: map<Word, Word>): map<Address,
                     Account<I>> {
    if address in accounts
    then accounts[address := accounts[address].(storage := accounts[address].storage + Customs(m))]
    else accounts
  }

  lemma NothingMerged<I>(accounts: map<Address, Account<I>>, address: Address)
    ensures Merged(accounts, address, map[]) == accounts
  {
    if address in accounts {
      assert accounts[address].storage + Customs(map[]) == accounts[address].storage;
    }
  }

  lemma MergedOne<I>(accounts: map<Address, Account<I>>, address: Address, m: map<Word, Word>, slot: Word, value: Word)
    requires address in accounts
    ensures address in Merged(accounts, address, m)
    ensures var account := Merged(accounts, address, m)[address];
            Merged(accounts, address, m)[address := account.(storage := account.storage[slot := Slot(value, Custom)])]
            == Merged(accounts, address, m[slot := value])
  {
    var storage := accounts[address].storage;
    assert (storage + Customs(m))[slot := Slot(value, Custom)] == storage + Customs(m[slot := value]);
  }

  /** The slot holds the value, marked as custom. */
  predicate Has(storage: Storage, slot: Word, value: Word) {
    slot in storage && storage[slot] == Slot(value, Custom)
  }

  function TokenWord(token: Address): Word
    requires token < Pow2(160)
  {
    Narrow(token, 160)
  }

  // ----- the slots of a V3 pool do not meet -----

  /** The storage holds the values of a mapping, but for the keys left over. */
  ghost predicate Maps(storage: Storage, slotOf: int -> Word, values: map<int, Word>, left: set<int>) {
    forall k :: k in values && k !in left ==> Has(storage, slotOf(k), values[k])
  }

  /** Slots of no key of the mapping are as before. */
  ghost predicate OnlyMaps(before: Storage, after: Storage, slotOf: int -> Word, values: map<int, Word>) {
    forall s: Word :: (forall k :: k in values ==> slotOf(k) != s) ==>
      (s in after <==> s in before) && (s in before ==> after[s] == before[s])
  }

  lemma MapsOneMore(before: Storage, storage: Storage, slotOf: int -> Word, values: map<int, Word>, left: set<int>,
                    k: int)
    requires Maps(storage, slotOf, values, left) && OnlyMaps(before, storage, slotOf, values)
    requires k in values && k in left
    requires forall i, j :: i in values && j in values && i != j ==> slotOf(i) != slotOf(j)
    ensures var next := storage[slotOf(k) := Slot(values[k], Custom)];
            Maps(next, slotOf, values, left - {k}) && OnlyMaps(before, next, slotOf, values)
  {
  }

  /** The storage after the fixed slots, then the ticks, then the bitmap were written. */
  ghost predicate Stages(tickSlot: int -> Word, wordSlot: int -> Word, nets: map<int, Word>, words: map<int, Word>,
                         fixed: Storage, withTicks: Storage, all: Storage)
  {
    && fixed.Keys <= FixedSlots()
    && Maps(withTicks, tickSlot, nets, {}) && OnlyMaps(fixed, withTicks, tickSlot, nets)
    && Maps(all, wordSlot, words, {}) && OnlyMaps(withTicks, all, wordSlot, words)
    && (forall t :: t in nets ==> IsI32(t)) && (forall w :: w in words ==> IsI16(w))
  }

  lemma FixedSlotsStay(tickSlot: int -> Word, wordSlot: int -> Word, nets: map<int, Word>, words: map<int, Word>,
                       fixed: Storage, withTicks: Storage, all: Storage)
    requires Apart(tickSlot, wordSlot) && Stages(tickSlot, wordSlot, nets, words, fixed, withTicks, all)
    ensures forall s: Word :: s in fixed ==> s in all && all[s] == fixed[s]
  {
  }

  lemma TicksStay(tickSlot: int -> Word, wordSlot: int -> Word, nets: map<int, Word>, words: map<int, Word>,
                  fixed: Storage, withTicks: Storage, all: Storage, t: int)
    requires Apart(tickSlot, wordSlot) && Stages(tickSlot, wordSlot, nets, words, fixed, withTicks, all)
    requires IsI32(t)
    ensures if t in nets then Has(all, tickSlot(t), nets[t]) else tickSlot(t) !in all
  {
    assert forall w :: w in words ==> wordSlot(w) != tickSlot(t);
  }

  lemma WordsAreApart(tickSlot: int -> Word, wordSlot: int -> Word, nets: map<int, Word>, words: map<int, Word>,
                      fixed: Storage, withTicks: Storage, all: Storage, w: int)
    requires Apart(tickSlot, wordSlot) && Stages(tickSlot, wordSlot, nets, words, fixed, withTicks, all)
    requires IsI16(w)
    ensures if w in words then Has(all, wordSlot(w), words[w]) else wordSlot(w) !in all
  {
    assert forall t :: t in nets ==> tickSlot(t) != wordSlot(w);
  }

  function FixedStorage(p: V3Pool): Storage
    requires Typed(p) && p.tickSpacing >= 0
  {
    map[0 := Slot(PackSlot0(p.sqrtPrice, p.tick), Custom)]
      [4 := Slot(PackLiquidity(p.liquidity), Custom)]
      [14 := Slot(PackSpacing(p.tickSpacing), Custom)]
  }

  lemma FixedStorageHas(p: V3Pool)
    requires Typed(p) && p.tickSpacing >= 0
    ensures HasFixed(p, FixedStorage(p)) && FixedStorage(p).Keys <= FixedSlots()
  {
    hide PackSlot0, PackLiquidity, PackSpacing;
  }

  function V2Storage(p: V2Pool): Storage
    requires p.token0 < Pow2(160) && p.token1 < Pow2(160)
  {
    map[8 := Slot(PackReserves(p.reserve0, p.reserve1), Custom)]
      [6 := Slot(TokenWord(p.token0), Custom)]
      [7 := Slot(TokenWord(p.token1), Custom)]
  }

  ghost predicate HasFixed(p: V3Pool, storage: Storage)
    requires Typed(p) && p.tickSpacing >= 0
  {
    && Has(storage, 0, PackSlot0(p.sqrtPrice, p.tick))
    && Has(storage, 4, PackLiquidity(p.liquidity))
    && Has(storage, 14, PackSpacing(p.tickSpacing))
  }

  function Lookup<I>(storage: Storage, chain: Chain<I>, address: Address, index: Word): Word {
    if index in storage then storage[index].value else chain.storage(address, index)
  }

  /** The slot as the accounts and the chain have it. */
  function ReadAt<I>(accounts: map<Address, Account<I>>, chain: Chain<I>, address: Address, index: Word): Word {
    Lookup(if address in accounts then accounts[address].storage else map[], chain, address, index)
  }

  lemma MergedReads<I>(accounts: map<Address, Account<I>>, chain: Chain<I>, address: Address, m: map<Word, Word>,
                       a: Address, s: Word)
    ensures ReadAt(Merged(accounts, address, m), chain, a, s)
         == if a == address && a in accounts && s in m then m[s] else ReadAt(accounts, chain, a, s)
  {
  }

  function PackedNets(ticks: map<int, int>): map<int, Word> {
    map t | t in ticks :: PackNet(ticks[t])
  }

  /** Net liquidity of a tick: as inserted, or else as the chain has it. */
  function NetOf<I>(p: V3Pool, chain: Chain<I>, hash: Hash, t: int): int {
    if t in p.ticks then p.ticks[t] else UnpackNet(chain.storage(p.address, TickSlots(hash)(t)))
  }

  function BitmapOf<I>(p: V3Pool, chain: Chain<I>, hash: Hash, w: int): Word {
    if w in p.bitmap then p.bitmap[w] else chain.storage(p.address, WordSlots(hash)(w))
  }

  lemma NetReadsBack<I>(p: V3Pool, chain: Chain<I>, hash: Hash, all: Storage, t: int)
    requires t in p.ticks ==> FitsBits(p.ticks[t], 128)
    requires if t in p.ticks then Has(all, TickSlots(hash)(t), PackedNets(p.ticks)[t]) else TickSlots(hash)(t) !in all
    ensures UnpackNet(Lookup(all, chain, p.address, TickSlots(hash)(t))) == NetOf(p, chain, hash, t)
  {
    if t in p.ticks {
      NetRoundTrip(p.ticks[t]);
    }
  }

  /** The next key, in whatever order the program's map yields them. */
  method AnyOf<T>(s: set<T>) returns (k: T)
    requires s != {}
    ensures k in s
  {
    k :| k in s;
  }

  /** The accounts differ at one address. */
  ghost predicate OnlyAt<I>(before: map<Address, Account<I>>, after: map<Address, Account<I>>, address: Address) {
    address in after && after == before[address := after[address]]
  }

  lemma OnlyAtTwice<I>(before: map<Address, Account<I>>, mid: map<Address, Account<I>>, after: map<Address,
                       Account<I>>, address: Address)
    requires OnlyAt(before, mid, address) && OnlyAt(mid, after, address)
    ensures OnlyAt(before, after, address)
  {
    assert before[address := after[address]] == mid[address := after[address]];
  }

  /** As `OnlyAt`, and the account there has a given header. */
  ghost predicate Renewed<I>(before: map<Address, Account<I>>, after: map<Address, Account<I>>, address: Address,
                             info: I) {
    OnlyAt(before, after, address) && after[address].info == info && after[address].insertionType == OnChain
  }

  lemma RenewedKeys<I>(before: map<Address, Account<I>>, after: map<Address, Account<I>>, address: Address, info: I)
    requires Renewed(before, after, address, info)
    ensures after.Keys == before.Keys + {address}
  {
  }

  class BlockStateDb<!I(==)> {
    const chain: Chain<I>
    const hash: Hash
    var accounts: map<Address, Account<I>>
    var pools: set<Address>

    ghost predicate Valid()
      reads this
    {
      Spreads(hash) && pools <= accounts.Keys
    }

    constructor (chain: Chain<I>, hash: Hash)
      requires Spreads(hash)
      ensures Valid() && this.chain == chain && this.hash == hash && accounts == map[] && pools == {}
    {
      this.chain := chain;
      this.hash := hash;
      accounts := map[];
      pools := {};
    }

    predicate TrackingPool(pool: Address)
      reads this
    {
      pool in pools
    }

    // ----- the overlay -----

    function BasicRef(address: Address): I
      reads this
    {
      if address in accounts then accounts[address].info else chain.info(address)
    }

    function StorageRef(address: Address, index: Word): Word
      reads this
    {
      ReadAt(accounts, chain, address, index)
    }

    /** Looking up an account remembers it, and changes no answer. */
    method Basic(address: Address) returns (info: I)
      modifies this`accounts
      ensures info == old(BasicRef(address)) && address in accounts
      ensures old(accounts.Keys) <= accounts.Keys
      ensures forall a :: BasicRef(a) == old(BasicRef(a))
      ensures forall a, s :: StorageRef(a, s) == old(StorageRef(a, s))
    {
      if address in accounts {
        return accounts[address].info;
      }
      info := BasicRef(address);
      InsertAccountInfo(address, info, OnChain);
    }

    method InsertAccountInfo(address: Address, info: I, insertionType: InsertionType)
      modifies this`accounts
      ensures accounts == old(accounts)[address := Account(info, insertionType, map[])]
    {
      accounts := accounts[address := Account(info, insertionType, map[])];
    }

    method InsertSlot(address: Address, index: Word, slot: Slot)
      requires address in accounts
      modifies this`accounts
      ensures accounts == old(accounts)[address := old(accounts[address]).(storage := old(accounts[address].storage)[index := slot])]
    {
      var account := accounts[address];
      accounts := accounts[address := account.(storage := account.storage[index := slot])];
    }

    /** Exactly one slot of one account reads differently afterwards. */
    method InsertAccountStorage(address: Address, index: Word, value: Word, insertionType: InsertionType)
      modifies this`accounts
      ensures StorageRef(address, index) == value
      ensures forall a: Address, s: Word :: a != address || s != index ==> StorageRef(a, s) == old(StorageRef(a, s))
      ensures forall a :: BasicRef(a) == old(BasicRef(a))
    {
      if address in accounts {
        InsertSlot(address, index, Slot(value, Custom));
        return;
      }
      var account := Basic(address);
      InsertAccountInfo(address, account, insertionType);
      InsertSlot(address, index, Slot(value, Custom));
    }

    /** Reading through: the answer is remembered, and no answer changes. */
    method ReadStorage(address: Address, index: Word) returns (value: Word)
      modifies this`accounts
      ensures value == old(StorageRef(address, index))
      ensures address in accounts && index in accounts[address].storage
      ensures forall a, s :: StorageRef(a, s) == old(StorageRef(a, s))
      ensures forall a :: BasicRef(a) == old(BasicRef(a))
    {
      if address in accounts && index in accounts[address].storage {
        return accounts[address].storage[index].value;
      }
      value := StorageRef(address, index);
      if address !in accounts {
        var _ := Basic(address);
      }
      InsertSlot(address, index, Slot(value, OnChain));
    }

    /** A pool is tracked, keeps its account information, and loses its storage. */
    method AddPool(pool: Address)
      modifies this
      ensures pools == old(pools) + {pool}
      ensures accounts == old(accounts)[pool := Account(old(BasicRef(pool)), OnChain, map[])]
    {
      pools := pools + {pool};
      var account := Account(BasicRef(pool), OnChain, map[]);
      accounts := accounts[pool := account];
    }

    /** All slots of the update are overwritten, if the account is known. */
    method UpdateAllSlots(address: Address, storage: map<Word, Word>)
      modifies this`accounts
      ensures accounts == Merged(old(accounts), address, storage)
      ensures forall a: Address, s: Word ::
        StorageRef(a, s) == if a == address && a in old(accounts) && s in storage then storage[s] else old(StorageRef(a, s))
    {
      MergeSlots(address, storage);
      hide Merged, ReadAt;
      forall a: Address, s: Word {
        MergedReads(old(accounts), chain, address, storage, a, s);
      }
    }

    method MergeSlots(address: Address, storage: map<Word, Word>)
      modifies this`accounts
      ensures accounts == Merged(old(accounts), address, storage)
    {
      var left := storage.Keys;
      ghost var done: map<Word, Word> := map[];
      NothingMerged(accounts, address);
      while left != {}
        invariant left <= storage.Keys && done.Keys == storage.Keys - left
        invariant forall s :: s in done ==> done[s] == storage[s]
        invariant accounts == Merged(old(accounts), address, done)
        decreases |left|
      {
        var slot :| slot in left;
        if address in accounts {
          MergedOne(old(accounts), address, done, slot, storage[slot]);
          InsertSlot(address, slot, Slot(storage[slot], Custom));
        }
        done := done[slot := storage[slot]];
        left := left - {slot};
      }
      assert done == storage;
    }

    // ----- V2 pools -----

    method InsertV2(p: V2Pool)
      requires p.token0 < Pow2(160) && p.token1 < Pow2(160)
      modifies this
      ensures old(Valid()) ==> Valid()
      ensures pools == old(pools) + {p.address}
      ensures Renewed(old(accounts), accounts, p.address, old(BasicRef(p.address)))
      ensures GetReserves(p.address) == (p.reserve0, p.reserve1) <==> p.reserve0 < Pow2(112) && p.reserve1 < Pow2(112)
      ensures GetToken0(p.address) == p.token0 && GetToken1(p.address) == p.token1
    {
      ghost var info := BasicRef(p.address);
      hide PackReserves, UnpackReserves, V2Storage, Low, Pow2;
      AddPool(p.address);
      InsertV2Slots(p, old(accounts), info);
      RenewedKeys(old(accounts), accounts, p.address, info);
      V2ReadersReturn(p);
    }

    method InsertV2Slots(p: V2Pool, ghost before: map<Address, Account<I>>, ghost info: I)
      requires p.token0 < Pow2(160) && p.token1 < Pow2(160)
      requires Renewed(before, accounts, p.address, info) && accounts[p.address].storage == map[]
      modifies this`accounts
      ensures Renewed(before, accounts, p.address, info)
      ensures accounts[p.address].storage == V2Storage(p)
    {
      hide PackReserves, TokenWord;
      InsertCustom(p.address, 8, PackReserves(p.reserve0, p.reserve1), before, info);
      InsertCustom(p.address, 6, TokenWord(p.token0), before, info);
      InsertCustom(p.address, 7, TokenWord(p.token1), before, info);
    }

    lemma V2ReadersReturn(p: V2Pool)
      requires p.token0 < Pow2(160) && p.token1 < Pow2(160)
      requires p.address in accounts && accounts[p.address].storage == V2Storage(p)
      ensures GetReserves(p.address) == (p.reserve0, p.reserve1) <==> p.reserve0 < Pow2(112) && p.reserve1 < Pow2(112)
      ensures GetToken0(p.address) == p.token0 && GetToken1(p.address) == p.token1
    {
      hide PackReserves, UnpackReserves, Low, Pow2;
      ReservesRoundTrip(p.reserve0, p.reserve1);
      LowOfSmall(TokenWord(p.token0), 160);
      LowOfSmall(TokenWord(p.token1), 160);
    }

    function GetReserves(pool: Address): (Word, Word)
      reads this
    {
      UnpackReserves(StorageRef(pool, 8))
    }

    function GetToken0(pool: Address): Address
      reads this
    {
      Low(StorageRef(pool, 6), 160)
    }

    function GetToken1(pool: Address): Address
      reads this
    {
      Low(StorageRef(pool, 7), 160)
    }

    // ----- V3 pools -----

    function Slot0Of(pool: Address): Option<Slot0>
      reads this
    {
      if pool in accounts && 0 in accounts[pool].storage then Some(UnpackSlot0(accounts[pool].storage[0].value)) else None
    }

    function Liquidity(pool: Address): Option<nat>
      reads this
    {
      if pool in accounts && 4 in accounts[pool].storage then Some(Saturate(accounts[pool].storage[4].value, 128)) else None
    }

    function TickSpacing(pool: Address): Option<int>
      reads this
    {
      if pool in accounts && 14 in accounts[pool].storage then Some(Saturate(accounts[pool].storage[14].value, 31)) else None
    }

    function TicksLiquidityNet(pool: Address, tick: int): int
      reads this
    {
      UnpackNet(StorageRef(pool, TickSlots(hash)(tick)))
    }

    function TickBitmap(pool: Address, word: int): Word
      reads this
    {
      StorageRef(pool, WordSlots(hash)(word))
    }

    /** A custom slot, inserted into an account that is there. */
    method InsertCustom(pool: Address, index: Word, value: Word, ghost before: map<Address, Account<I>>, ghost info: I)
      requires Renewed(before, accounts, pool, info)
      modifies this`accounts
      ensures Renewed(before, accounts, pool, info)
      ensures accounts[pool].storage == old(accounts[pool].storage)[index := Slot(value, Custom)]
    {
      InsertSlot(pool, index, Slot(value, Custom));
      OnlyAtTwice(before, old(accounts), accounts, pool);
    }

    method InsertFixedSlots(p: V3Pool, ghost before: map<Address, Account<I>>, ghost info: I)
      requires Typed(p) && p.tickSpacing >= 0
      requires Renewed(before, accounts, p.address, info) && accounts[p.address].storage == map[]
      modifies this`accounts
      ensures Renewed(before, accounts, p.address, info)
      ensures HasFixed(p, accounts[p.address].storage) && accounts[p.address].storage.Keys <= FixedSlots()
    {
      hide PackSlot0, PackLiquidity, PackSpacing, HasFixed;
      InsertCustom(p.address, 0, PackSlot0(p.sqrtPrice, p.tick), before, info);
      InsertCustom(p.address, 4, PackLiquidity(p.liquidity), before, info);
      InsertCustom(p.address, 14, PackSpacing(p.tickSpacing), before, info);
      assert accounts[p.address].storage == FixedStorage(p);
      FixedStorageHas(p);
    }

    /** One insertion per entry of a mapping: ticks and bitmap words are inserted alike. */
    method InsertMapping(pool: Address, slotOf: int -> Word, values: map<int, Word>, ghost before: map<Address,
                         Account<I>>, ghost info: I)
      requires Renewed(before, accounts, pool, info)
      requires forall i, j :: i in values && j in values && i != j ==> slotOf(i) != slotOf(j)
      modifies this`accounts
      ensures Renewed(before, accounts, pool, info)
      ensures Maps(accounts[pool].storage, slotOf, values, {})
      ensures OnlyMaps(old(accounts[pool].storage), accounts[pool].storage, slotOf, values)
    {
      var left := values.Keys;
      while left != {}
        invariant left <= values.Keys
        invariant Renewed(before, accounts, pool, info)
        invariant Maps(accounts[pool].storage, slotOf, values, left)
        invariant OnlyMaps(old(accounts[pool].storage), accounts[pool].storage, slotOf, values)
        decreases |left|
      {
        var k := AnyOf(left);
        MapsOneMore(old(accounts[pool].storage), accounts[pool].storage, slotOf, values, left, k);
        InsertCustom(pool, slotOf(k), values[k], before, info);
        left := left - {k};
      }
    }

    /**
      Every reader returns what was inserted: the tick exactly when it has 24 bits; a tick or bitmap word that was
      not inserted is answered by the chain.  A negative tick spacing panics.
    */
    method InsertV3(p: V3Pool)
      requires Valid() && Typed(p) && p.tickSpacing >= 0
      modifies this
      ensures Valid() && pools == old(pools) + {p.address}
      ensures Renewed(old(accounts), accounts, p.address, old(BasicRef(p.address)))
      ensures ReadsFixed(p)
      ensures forall t :: IsI32(t) ==> TicksLiquidityNet(p.address, t) == NetOf(p, chain, hash, t)
      ensures forall w :: IsI16(w) ==> TickBitmap(p.address, w) == BitmapOf(p, chain, hash, w)
    {
      ghost var info := BasicRef(p.address);
      hide Typed, ReadsFixed, NetOf, BitmapOf, ReadAt, UnpackNet;
      AddPool(p.address);
      InsertV3Slots(p, old(accounts), info);
      RenewedKeys(old(accounts), accounts, p.address, info);
    }

    method InsertV3Slots(p: V3Pool, ghost before: map<Address, Account<I>>, ghost info: I)
      requires Spreads(hash) && Typed(p) && p.tickSpacing >= 0
      requires Renewed(before, accounts, p.address, info) && accounts[p.address].storage == map[]
      modifies this`accounts
      ensures Renewed(before, accounts, p.address, info)
      ensures ReadsFixed(p)
      ensures forall t :: IsI32(t) ==> TicksLiquidityNet(p.address, t) == NetOf(p, chain, hash, t)
      ensures forall w :: IsI16(w) ==> TickBitmap(p.address, w) == BitmapOf(p, chain, hash, w)
    {
      hide HasFixed, Stages;
      InsertFixedSlots(p, before, info);
      ghost var fixed := accounts[p.address].storage;
      ghost var withTicks := InsertTickData(p, before, info);
      ReadersReturn(p, fixed, withTicks);
    }

    method InsertTickData(p: V3Pool, ghost before: map<Address, Account<I>>,
                          ghost info: I) returns (ghost withTicks: Storage)
      requires Spreads(hash) && Typed(p)
      requires Renewed(before, accounts, p.address, info) && accounts[p.address].storage.Keys <= FixedSlots()
      modifies this`accounts
      ensures Renewed(before, accounts, p.address, info)
      ensures Stages(TickSlots(hash), WordSlots(hash), PackedNets(p.ticks), p.bitmap,
                     old(accounts[p.address].storage), withTicks, accounts[p.address].storage)
    {
      InsertMapping(p.address, TickSlots(hash), PackedNets(p.ticks), before, info);
      withTicks := accounts[p.address].storage;
      InsertMapping(p.address, WordSlots(hash), p.bitmap, before, info);
    }

    lemma ReadersReturn(p: V3Pool, fixed: Storage, withTicks: Storage)
      requires Spreads(hash) && Typed(p) && p.tickSpacing >= 0 && p.address in accounts
      requires HasFixed(p, fixed)
      requires Stages(TickSlots(hash), WordSlots(hash), PackedNets(p.ticks), p.bitmap, fixed, withTicks, accounts[p.address].storage)
      ensures ReadsFixed(p)
      ensures forall t :: IsI32(t) ==> TicksLiquidityNet(p.address, t) == NetOf(p, chain, hash, t)
      ensures forall w :: IsI16(w) ==> TickBitmap(p.address, w) == BitmapOf(p, chain, hash, w)
    {
      hide Stages, ReadsFixed, NetOf, BitmapOf, ReadAt, UnpackNet, Typed;
      FixedReadersReturn(p, fixed, withTicks);
      forall t | IsI32(t) {
        NetReturns(p, fixed, withTicks, t);
      }
      forall w | IsI16(w) {
        WordReturns(p, fixed, withTicks, w);
      }
    }

    lemma NetReturns(p: V3Pool, fixed: Storage, withTicks: Storage, t: int)
      requires Spreads(hash) && Typed(p) && p.address in accounts && IsI32(t)
      requires Stages(TickSlots(hash), WordSlots(hash), PackedNets(p.ticks), p.bitmap, fixed, withTicks, accounts[p.address].storage)
      ensures TicksLiquidityNet(p.address, t) == NetOf(p, chain, hash, t)
    {
      hide Stages, NetOf, UnpackNet;
      TicksStay(TickSlots(hash), WordSlots(hash), PackedNets(p.ticks), p.bitmap, fixed, withTicks, accounts[p.address].storage, t);
      NetReadsBack(p, chain, hash, accounts[p.address].storage, t);
    }

    lemma WordReturns(p: V3Pool, fixed: Storage, withTicks: Storage, w: int)
      requires Spreads(hash) && p.address in accounts && IsI16(w)
      requires Stages(TickSlots(hash), WordSlots(hash), PackedNets(p.ticks), p.bitmap, fixed, withTicks, accounts[p.address].storage)
      ensures TickBitmap(p.address, w) == BitmapOf(p, chain, hash, w)
    {
      hide Stages;
      WordsAreApart(TickSlots(hash), WordSlots(hash), PackedNets(p.ticks), p.bitmap, fixed, withTicks, accounts[p.address].storage, w);
    }

    lemma FixedReadersReturn(p: V3Pool, fixed: Storage, withTicks: Storage)
      requires Spreads(hash) && Typed(p) && p.tickSpacing >= 0 && p.address in accounts && HasFixed(p, fixed)
      requires Stages(TickSlots(hash), WordSlots(hash), PackedNets(p.ticks), p.bitmap, fixed, withTicks, accounts[p.address].storage)
      ensures ReadsFixed(p)
    {
      hide Stages, ReadsFixed, PackSlot0, PackLiquidity, PackSpacing;
      FixedSlotsStay(TickSlots(hash), WordSlots(hash), PackedNets(p.ticks), p.bitmap, fixed, withTicks, accounts[p.address].storage);
      FixedReaders(p);
    }

    lemma FixedReaders(p: V3Pool)
      requires Typed(p) && p.tickSpacing >= 0 && p.address in accounts
      requires HasFixed(p, accounts[p.address].storage)
      ensures ReadsFixed(p)
    {
      hide PackSlot0, PackLiquidity, PackSpacing, UnpackSlot0, Saturate;
      Slot0RoundTrip(p.sqrtPrice, p.tick);
      SaturatedRoundTrip(p.liquidity, p.tickSpacing);
    }

    /** Slot 0, liquidity and tick spacing are read as they are in the pool; the tick exactly when it has 24 bits. */
    predicate ReadsFixed(p: V3Pool)
      reads this
    {
      && Slot0Of(p.address).Some?
      && (var s := Slot0Of(p.address).value;
          s == Slot0(p.sqrtPrice, s.tick, 0, 0, 0, 0, true) && (s.tick == p.tick <==> FitsBits(p.tick, 24)))
      && Liquidity(p.address) == Some(p.liquidity) && TickSpacing(p.address) == Some(p.tickSpacing)
    }
  }
}
