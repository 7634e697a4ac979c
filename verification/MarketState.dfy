/**
  Keeping the state database in step with the chain: blocks are traced and written one by one, first to catch up
  with the head and then from a stream of new blocks.
*/
module MarketState {
  import opened Searcher
  import opened StateDb
  import opened Swaps
  import opened U256

  /** The post-state updates of each block, over all its transactions in order. */
  type Trace = nat -> seq<Update>

  // ----- what a sequence of updates does to a slot -----

  /** Last write wins. */
  function Latest(updates: seq<Update>, address: Address, slot: Word, value: Word): Word {
    if updates == [] then value
    else
      var u := updates[|updates| - 1];
      if u.address == address && slot in u.storage then u.storage[slot]
      else Latest(updates[..|updates| - 1], address, slot, value)
  }

  lemma {:induction false} LatestConcat(a: seq<Update>, b: seq<Update>, address: Address, slot: Word, value: Word)
    ensures Latest(a + b, address, slot, value) == Latest(b, address, slot, Latest(a, address, slot, value))
    decreases |b|
  {
    if b == [] {
      assert a + b == a;
    } else {
      var n := |b| - 1;
      assert (a + b)[..|a + b| - 1] == a + b[..n];
      LatestConcat(a, b[..n], address, slot, value);
    }
  }

  function Addresses(updates: seq<Update>): set<Address> {
    set u | u in updates :: u.address
  }

  /** All updates of some blocks, one block after the other. */
  function Replayed(trace: Trace, blocks: seq<nat>): seq<Update> {
    if blocks == [] then [] else Replayed(trace, blocks[..|blocks| - 1]) + trace(blocks[|blocks| - 1])
  }

  // ----- which blocks are processed -----

  function Range(first: nat, last: nat): (r: seq<nat>)
    ensures |r| == if first <= last then last - first + 1 else 0
    ensures forall i :: 0 <= i < |r| ==> r[i] == first + i
  {
    if first <= last then seq(last - first + 1, i requires 0 <= i => first + i) else []
  }

  /** The head at which catching up ends, or how far it got when the polls run out. */
  function CaughtUp(last: nat, heads: seq<nat>): nat
    decreases |heads|
  {
    if heads == [] || heads[0] <= last then last else CaughtUp(heads[0], heads[1..])
  }

  /** Some poll finds the head no further than what was already caught up with. */
  predicate ReachesHead(last: nat, heads: seq<nat>)
    decreases |heads|
  {
    heads != [] && (heads[0] <= last || ReachesHead(heads[0], heads[1..]))
  }

  /** Of the streamed blocks, those above every block before them. */
  function Fresher(last: nat, stream: seq<nat>): seq<nat>
    decreases |stream|
  {
    if stream == [] then []
    else if stream[0] <= last then Fresher(last, stream[1..])
    else [stream[0]] + Fresher(stream[0], stream[1..])
  }

  function Processed(last: nat, heads: seq<nat>, stream: seq<nat>): seq<nat> {
    Range(last + 1, CaughtUp(last, heads)) + Fresher(CaughtUp(last, heads), stream)
  }

  /** One message per streamed block, with the tracked pools that the block updates. */
  function Announcements(trace: Trace, pools: set<Address>, blocks: seq<nat>): (r: seq<Message>)
    ensures |r| == |blocks|
  {
    seq(|blocks|, i requires 0 <= i < |blocks| => Message(pools * Addresses(trace(blocks[i])), blocks[i]))
  }

  predicate StrictlyAbove(last: nat, blocks: seq<nat>) {
    && (forall i :: 0 <= i < |blocks| ==> last < blocks[i])
    && (forall i, j :: 0 <= i < j < |blocks| ==> blocks[i] < blocks[j])
  }

  lemma {:induction false} FresherIncreases(last: nat, stream: seq<nat>)
    ensures StrictlyAbove(last, Fresher(last, stream))
    decreases |stream|
  {
    if stream != [] {
      FresherIncreases(if stream[0] <= last then last else stream[0], stream[1..]);
    }
  }

  lemma {:induction false} CaughtUpAtLeast(last: nat, heads: seq<nat>)
    ensures CaughtUp(last, heads) >= last
    decreases |heads|
  {
    if heads != [] && heads[0] > last {
      CaughtUpAtLeast(heads[0], heads[1..]);
    }
  }

  /** No block is processed twice or out of order. */
  lemma ProcessedIncreases(last: nat, heads: seq<nat>, stream: seq<nat>)
    ensures StrictlyAbove(last, Processed(last, heads, stream))
  {
    CaughtUpAtLeast(last, heads);
    FresherIncreases(CaughtUp(last, heads), stream);
  }

  /** The stream never jumps: no block is more than one above all before it. */
  predicate NoJump(last: nat, stream: seq<nat>)
    decreases |stream|
  {
    stream == [] ||
    (stream[0] <= last + 1 && NoJump(if stream[0] <= last then last else stream[0], stream[1..]))
  }

  predicate Contiguous(last: nat, blocks: seq<nat>) {
    forall i :: 0 <= i < |blocks| ==> blocks[i] == last + 1 + i
  }

  lemma {:induction false} FresherContiguous(last: nat, stream: seq<nat>)
    ensures Contiguous(last, Fresher(last, stream)) <==> NoJump(last, stream)
    decreases |stream|
  {
    if stream == [] {
    } else if stream[0] <= last {
      FresherContiguous(last, stream[1..]);
    } else {
      var rest := Fresher(stream[0], stream[1..]);
      FresherContiguous(stream[0], stream[1..]);
      assert Fresher(last, stream) == [stream[0]] + rest;
      if Contiguous(last, [stream[0]] + rest) {
        assert ([stream[0]] + rest)[0] == last + 1;
        forall i | 0 <= i < |rest| ensures rest[i] == stream[0] + 1 + i {
          assert ([stream[0]] + rest)[i + 1] == rest[i];
        }
      }
    }
  }

  /** Every block is processed, without a gap, exactly when the stream takes over without a jump. */
  lemma {:induction false} ProcessedContiguous(last: nat, heads: seq<nat>, stream: seq<nat>)
    ensures Contiguous(last, Processed(last, heads, stream)) <==> NoJump(CaughtUp(last, heads), stream)
  {
    CaughtUpAtLeast(last, heads);
    var head := CaughtUp(last, heads);
    var caught, fresher := Range(last + 1, head), Fresher(head, stream);
    assert |caught| == head - last;
    FresherContiguous(head, stream);
    if Contiguous(last, caught + fresher) {
      forall i | 0 <= i < |fresher| ensures fresher[i] == head + 1 + i {
        assert (caught + fresher)[|caught| + i] == fresher[i];
      }
    }
  }

  /** The last synced block after some of the stream. */
  function Newest(last: nat, stream: seq<nat>): nat
    decreases |stream|
  {
    if stream == [] then last else Newest(if stream[0] <= last then last else stream[0], stream[1..])
  }

  /** Streaming one more block. */
  lemma {:induction false} OneMore(last: nat, stream: seq<nat>, b: nat)
    ensures var newest := Newest(last, stream);
            if b <= newest
            then Fresher(last, stream + [b]) == Fresher(last, stream) && Newest(last, stream + [b]) == newest
            else Fresher(last, stream + [b]) == Fresher(last, stream) + [b] && Newest(last, stream + [b]) == b
    decreases |stream|
  {
    if stream == [] {
      assert stream + [b] == [b];
    } else {
      assert (stream + [b])[1..] == stream[1..] + [b];
      OneMore(if stream[0] <= last then last else stream[0], stream[1..], b);
    }
  }

  lemma OneMoreAnnounced(trace: Trace, pools: set<Address>, blocks: seq<nat>, b: nat)
    ensures Announcements(trace, pools, blocks + [b])
            == Announcements(trace, pools, blocks) + [Message(pools * Addresses(trace(b)), b)]
  {
  }

  // ----- the program -----

  class MarketState<!I(==)> {
    const db: BlockStateDb<I>

    constructor (db: BlockStateDb<I>)
      ensures this.db == db
    {
      this.db := db;
    }

    /** Slots of tracked pools take the value written last, and no other slot changes. */
    twostate predicate Applied(updates: seq<Update>)
      reads db
    {
      && db.pools == old(db.pools) && db.Valid()
      && forall a: Address, s: Word :: db.StorageRef(a, s) ==
           if a in db.pools then Latest(updates, a, s, old(db.StorageRef(a, s))) else old(db.StorageRef(a, s))
    }

    method UpdateState(trace: Trace, block: nat) returns (updatedPools: set<Address>)
      requires db.Valid()
      modifies db
      ensures Applied(trace(block))
      ensures updatedPools == db.pools * Addresses(trace(block))
    {
      var updates := trace(block);
      updatedPools := {};
      for i := 0 to |updates|
        invariant Applied(updates[..i])
        invariant updatedPools == db.pools * Addresses(updates[..i])
      {
        var u := updates[i];
        assert updates[..i + 1] == updates[..i] + [u];
        if db.TrackingPool(u.address) {
          db.UpdateAllSlots(u.address, u.storage);
          updatedPools := updatedPools + {u.address};
        }
        assert updates[..i + 1][..i] == updates[..i];
      }
      assert updates[..|updates|] == updates;
    }

    /** One more block, after those already processed. */
    method ProcessBlock(trace: Trace, block: nat, ghost processed: seq<nat>, ghost start: (Address, Word) -> Word)
      returns (updatedPools: set<Address>)
      requires db.Valid() && Follows(Replayed(trace, processed), start)
      modifies db
      ensures db.Valid() && db.pools == old(db.pools) && Follows(Replayed(trace, processed + [block]), start)
      ensures updatedPools == db.pools * Addresses(trace(block))
    {
      updatedPools := UpdateState(trace, block);
      assert (processed + [block])[..|processed|] == processed;
      forall a: Address, s: Word
        ensures Latest(Replayed(trace, processed + [block]), a, s, start(a, s))
                == Latest(trace(block), a, s, Latest(Replayed(trace, processed), a, s, start(a, s)))
      {
        LatestConcat(Replayed(trace, processed), trace(block), a, s, start(a, s));
      }
    }

    /** Tracked pools hold the starting storage with the updates replayed over it; all else is as at the start. */
    ghost predicate Follows(updates: seq<Update>, start: (Address, Word) -> Word)
      reads db
    {
      forall a: Address, s: Word :: db.StorageRef(a, s) ==
        if a in db.pools then Latest(updates, a, s, start(a, s)) else start(a, s)
    }

    /**
      Any prefix of a run of the updater: `heads` are the answers to its polls of the head, `stream` the numbers of
      the blocks it receives.  If the polls end before it has caught up, it does not reach the stream.
    */
    method StateUpdater(trace: Trace, heads: seq<nat>, stream: seq<nat>, lastSynced: nat, ghost start: (Address,
                        Word) -> Word)
      returns (ghost processed: seq<nat>, messages: seq<Message>)
      requires db.Valid() && Follows([], start)
      modifies db
      ensures db.Valid() && db.pools == old(db.pools) && Follows(Replayed(trace, processed), start)
      ensures processed == Processed(lastSynced, heads, if ReachesHead(lastSynced, heads) then stream else [])
      ensures messages == if ReachesHead(lastSynced, heads)
                          then Announcements(trace, db.pools, Fresher(CaughtUp(lastSynced, heads), stream)) else []
    {
      processed, messages := [], [];
      if heads == [] {
        return;
      }
      var last: nat, current: nat, polls: seq<nat> := lastSynced, heads[0], heads[1..];
      while last < current
        invariant lastSynced <= last && db.Valid() && db.pools == old(db.pools)
        invariant processed == Range(lastSynced + 1, last) && Follows(Replayed(trace, processed), start)
        invariant CaughtUp(lastSynced, heads) == CaughtUp(last, [current] + polls)
        invariant ReachesHead(lastSynced, heads) == ReachesHead(last, [current] + polls)
        decreases |polls|, current - last
      {
        processed := ProcessRange(trace, lastSynced, last, current, processed, start);
        last := current;
        if polls == [] {
          return;
        }
        current, polls := polls[0], polls[1..];
      }
      processed, messages := StreamIn(trace, stream, last, processed, start);
    }

    /** The blocks after `last` up to `current`, after those from `first + 1` to `last`. */
    method ProcessRange(trace: Trace, ghost first: nat, last: nat, current: nat, ghost before: seq<nat>,
                        ghost start: (Address, Word) -> Word)
      returns (ghost processed: seq<nat>)
      requires first <= last <= current && before == Range(first + 1, last)
      requires db.Valid() && Follows(Replayed(trace, before), start)
      modifies db
      ensures db.Valid() && db.pools == old(db.pools) && Follows(Replayed(trace, processed), start)
      ensures processed == Range(first + 1, current)
    {
      hide Follows, Replayed;
      processed := before;
      for block := last + 1 to current + 1
        invariant db.Valid() && db.pools == old(db.pools)
        invariant processed == Range(first + 1, block - 1) && Follows(Replayed(trace, processed), start)
      {
        var _ := ProcessBlock(trace, block, processed, start);
        processed := processed + [block];
      }
    }

    /** New blocks from the stream; a block that was already processed is skipped. */
    method StreamIn(trace: Trace, stream: seq<nat>, head: nat, ghost caught: seq<nat>, ghost start: (Address,
                    Word) -> Word)
      returns (ghost processed: seq<nat>, messages: seq<Message>)
      requires db.Valid() && Follows(Replayed(trace, caught), start)
      modifies db
      ensures db.Valid() && db.pools == old(db.pools) && Follows(Replayed(trace, processed), start)
      ensures processed == caught + Fresher(head, stream)
      ensures messages == Announcements(trace, db.pools, Fresher(head, stream))
    {
      var last := head;
      processed, messages := caught, [];
      for i := 0 to |stream|
        invariant db.Valid() && db.pools == old(db.pools) && Follows(Replayed(trace, processed), start)
        invariant last == Newest(head, stream[..i])
        invariant processed == caught + Fresher(head, stream[..i])
        invariant messages == Announcements(trace, db.pools, Fresher(head, stream[..i]))
      {
        var block := stream[i];
        assert stream[..i + 1] == stream[..i] + [block];
        OneMore(head, stream[..i], block);
        if block <= last {
          continue;
        }
        OneMoreAnnounced(trace, db.pools, Fresher(head, stream[..i]), block);
        var updatedPools := ProcessBlock(trace, block, processed, start);
        processed := processed + [block];
        messages := messages + [Message(updatedPools, block)];
        last := block;
      }
      assert stream[..|stream|] == stream;
    }
  }
}
