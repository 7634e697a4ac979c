/**
  The output cache and the calculator of a path: cached with an early exit, and uncached.  A pool's quote is any
  function of its state, the step and the amount.
*/
module Calculators {
  import opened Outcomes
  import opened Swaps
  import opened U256

  /** Amount every path is calculated for: a thousandth of a token. */
  const AMOUNT: Word := 1_000_000_000_000_000

  /** The cache key has no token: it does not say in which direction the pool is traded. */
  datatype Key = Key(pool: Address, amountIn: Word)

  type Entries = map<Key, Word>

  type Quote<!S> = (S, SwapStep, Word) -> Word

  predicate Tracked<S>(db: map<Address, S>, path: SwapPath) {
    forall s :: s in path ==> s.pool in db
  }

  // ----- specification -----

  /** All amounts along a path, computed afresh. */
  function Debug<S>(quote: Quote<S>, db: map<Address, S>, path: SwapPath, amount: Word): (amounts: seq<Word>)
    requires Tracked(db, path)
    ensures |amounts| == |path| + 1
  {
    if path == [] then [amount]
    else [amount] + Debug(quote, db, path[1..], quote(db[path[0].pool], path[0], amount))
  }

  function Fresh<S>(quote: Quote<S>, db: map<Address, S>, path: SwapPath, amount: Word): Word
    requires Tracked(db, path)
  {
    Debug(quote, db, path, amount)[|path|]
  }

  datatype Calculation = Calculation(amount: Word, entries: Entries)

  /** The output through the cache, and the cache afterwards. */
  function Calculate<S>(quote: Quote<S>, db: map<Address, S>, path: SwapPath, amount: Word,
                        entries: Entries): Calculation
    requires Tracked(db, path)
  {
    if path == [] then Calculation(amount, entries)
    else
      var step := path[0];
      var key := Key(step.pool, amount);
      var out := if key in entries then entries[key] else quote(db[step.pool], step, amount);
      var entries' := if key in entries then entries else entries[key := out];
      if out == 0 then Calculation(0, entries') else Calculate(quote, db, path[1..], out, entries')
  }

  // ----- when the cache tells the truth -----

  /** For each key, the step it is asked with. */
  type Askers = Key -> SwapStep

  /** Each entry is what its step yields now. */
  ghost predicate Current<S>(quote: Quote<S>, asker: Askers, db: map<Address, S>, entries: Entries) {
    forall k :: k in entries ==> k.pool in db && entries[k] == quote(db[k.pool], asker(k), k.amountIn)
  }

  /** A step that asks for a key quotes like the step the key belongs to. */
  ghost predicate AskedAlike<S>(quote: Quote<S>, asker: Askers, db: map<Address, S>, step: SwapStep, amount: Word) {
    step.pool in db && quote(db[step.pool], step, amount) == quote(db[step.pool], asker(Key(step.pool, amount)), amount)
  }

  /** So does every step of the path, with the amount it is given. */
  ghost predicate PathAskedAlike<S>(quote: Quote<S>, asker: Askers, db: map<Address, S>, path: SwapPath, amount: Word)
    requires Tracked(db, path)
  {
    path != [] ==>
      && AskedAlike(quote, asker, db, path[0], amount)
      && PathAskedAlike(quote, asker, db, path[1..], quote(db[path[0].pool], path[0], amount))
  }

  ghost predicate ZeroYieldsZero<S>(quote: Quote<S>, db: map<Address, S>, path: SwapPath)
    requires Tracked(db, path)
  {
    forall s :: s in path ==> quote(db[s.pool], s, 0) == 0
  }

  lemma {:induction false} FreshOfZero<S>(quote: Quote<S>, db: map<Address, S>, path: SwapPath)
    requires Tracked(db, path) && ZeroYieldsZero(quote, db, path)
    ensures Fresh(quote, db, path, 0) == 0
  {
    if path != [] {
      assert path[0] in path;
      FreshOfZero(quote, db, path[1..]);
    }
  }

  /** Over a cache that tells the truth, the cached output is the uncached one, and the cache stays truthful. */
  lemma {:induction false} CachedIsFresh<S>(quote: Quote<S>, asker: Askers, db: map<Address, S>, path: SwapPath,
                                            amount: Word, entries: Entries)
    requires Tracked(db, path) && Current(quote, asker, db, entries)
    requires PathAskedAlike(quote, asker, db, path, amount) && ZeroYieldsZero(quote, db, path)
    ensures var c := Calculate(quote, db, path, amount, entries);
            c.amount == Fresh(quote, db, path, amount) && Current(quote, asker, db, c.entries)
    decreases |path|
  {
    if path != [] {
      var step, key := path[0], Key(path[0].pool, amount);
      assert step in path;
      var out := quote(db[step.pool], step, amount);
      var entries' := if key in entries then entries else entries[key := out];
      if out == 0 {
        FreshOfZero(quote, db, path[1..]);
      } else {
        CachedIsFresh(quote, asker, db, path[1..], out, entries');
      }
    }
  }

  lemma AppendTwice(a: seq<Word>, b: Word, c: seq<Word>)
    ensures (a + [b]) + c == a + ([b] + c)
  {
  }

  // ----- the program -----

  class Cache {
    var entries: Entries

    constructor ()
      ensures entries == map[]
    {
      entries := map[];
    }

    method Get(amountIn: Word, pool: Address) returns (r: Option<Word>)
      ensures r == if Key(pool, amountIn) in entries then Some(entries[Key(pool, amountIn)]) else None
    {
      var key := Key(pool, amountIn);
      r := if key in entries then Some(entries[key]) else None;
    }

    method Set(amountIn: Word, pool: Address, out: Word)
      modifies this
      ensures entries == old(entries)[Key(pool, amountIn) := out]
    {
      entries := entries[Key(pool, amountIn) := out];
    }

    method Invalidate(pool: Address)
      modifies this
      ensures entries == Without(old(entries), {pool})
    {
      entries := map k | k in entries && k.pool != pool :: entries[k];
    }
  }

  /** The entries of all other pools. */
  function Without(entries: Entries, pools: set<Address>): Entries {
    map k | k in entries && k.pool !in pools :: entries[k]
  }

  class Calculator<!S> {
    const quote: Quote<S>
    const cache: Cache

    constructor (quote: Quote<S>)
      ensures this.quote == quote && fresh(cache) && cache.entries == map[]
    {
      this.quote := quote;
      cache := new Cache();
    }

    method CalculateOutput(db: map<Address, S>, path: SwapPath) returns (amount: Word)
      requires Tracked(db, path)
      modifies cache
      ensures Calculation(amount, cache.entries) == Calculate(quote, db, path, AMOUNT, old(cache.entries))
    {
      amount := AMOUNT;
      for i := 0 to |path|
        invariant Calculate(quote, db, path[i..], amount, cache.entries) == Calculate(quote, db, path, AMOUNT, old(cache.entries))
      {
        var step := path[i];
        assert path[i..][0] == step && path[i..][1..] == path[i + 1..];
        var cached := cache.Get(amount, step.pool);
        if cached.Some? {
          amount := cached.value;
        } else {
          var outputAmount := quote(db[step.pool], step, amount);
          cache.Set(amount, step.pool, outputAmount);
          amount := outputAmount;
        }
        if amount == 0 {
          return 0;
        }
      }
    }

    method DebugCalculation(db: map<Address, S>, path: SwapPath) returns (amounts: seq<Word>)
      requires Tracked(db, path)
      ensures amounts == Debug(quote, db, path, AMOUNT)
    {
      var amount := AMOUNT;
      amounts := [amount];
      for i := 0 to |path|
        invariant |amounts| > 0 && amounts[|amounts| - 1] == amount
        invariant amounts[..|amounts| - 1] + Debug(quote, db, path[i..], amount) == Debug(quote, db, path, AMOUNT)
      {
        var step := path[i];
        assert path[i..][0] == step && path[i..][1..] == path[i + 1..];
        ghost var before := amounts;
        var outputAmount := quote(db[step.pool], step, amount);
        AppendTwice(before[..|before| - 1], amount, Debug(quote, db, path[i + 1..], outputAmount));
        assert before[..|before| - 1] + [amount] == before;
        amounts := amounts + [outputAmount];
        amount := outputAmount;
        assert amounts[..|amounts| - 1] == before;
      }
    }

    method InvalidateCache(updatedPools: set<Address>)
      modifies cache
      ensures cache.entries == Without(old(cache.entries), updatedPools)
    {
      var left := updatedPools;
      while left != {}
        invariant left <= updatedPools && cache.entries == Without(old(cache.entries), updatedPools - left)
        decreases |left|
      {
        var pool :| pool in left;
        cache.Invalidate(pool);
        left := left - {pool};
      }
    }
  }
}
