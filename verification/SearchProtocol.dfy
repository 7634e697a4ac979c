/**
  The updater and the searcher as two threads that share the pool database and a channel.  The updater writes a
  block and then sends the pools it touched; the searcher invalidates its cache for a received message, and then
  calculates affected paths step by step, looking up, computing and storing.  The steps interleave freely.
*/
module SearchProtocol {
  import opened Calculators
  import opened Searcher
  import opened Swaps
  import opened U256

  /** The searcher's fixed data, and the step each key is asked with. */
  datatype Context<!S> = Context(quote: Quote<S>, asker: Askers, cycles: seq<SwapPath>)

  /** Blocks are first caught up with silently; then each is written, and its touched pools are still to be sent. */
  datatype Updater = CatchingUp | Streaming | Unsent(touched: set<Address>)

  datatype Phase =
    | Waiting
    | Invalidating(left: set<Address>, touched: set<Address>)
    | Choosing(touched: set<Address>)
    | Stepping(path: SwapPath, i: nat, amount: Word)
    | Storing(path: SwapPath, i: nat, amount: Word, output: Word)

  datatype State<S> = State(
    db: map<Address, S>,
    updater: Updater,
    channel: seq<set<Address>>,
    searcher: Phase,
    entries: Entries)

  datatype Action<S> =
    | CatchUp(post: map<Address, S>)      // write a block without a message
    | CaughtUp
    | ApplyBlock(post: map<Address, S>)   // write the post-state of the tracked pools
    | Send
    | Receive
    | Invalidate(pool: Address)
    | StartChoosing
    | Choose(path: SwapPath)
    | ChooseNothing
    | Hit                                 // the amount and pool are in the cache
    | Miss                                // they are not: compute under the read lock
    | Store
    | Finish

  /** Tracked pools whose post-state is in the block. */
  function Touched<S>(s: State<S>, post: map<Address, S>): set<Address> {
    post.Keys * s.db.Keys
  }

  function Restrict<S>(post: map<Address, S>, pools: set<Address>): map<Address, S> {
    map p | p in post && p in pools :: post[p]
  }


  predicate Looking<S>(s: State<S>) {
    s.searcher.Stepping? && s.searcher.i < |s.searcher.path|
  }

  function KeyOf(path: SwapPath, i: nat, amount: Word): Key
    requires i < |path|
  {
    Key(path[i].pool, amount)
  }

  ghost predicate Enabled<S>(c: Context<S>, s: State<S>, a: Action<S>) {
    match a
    case CatchUp(_) => s.updater.CatchingUp?
    case CaughtUp => s.updater.CatchingUp?
    case ApplyBlock(_) => s.updater.Streaming?
    case Send => s.updater.Unsent?
    case Receive => s.searcher.Waiting? && s.channel != []
    case Invalidate(pool) => s.searcher.Invalidating? && pool in s.searcher.left
    case StartChoosing => s.searcher.Invalidating? && s.searcher.left == {}
    case Choose(path) => s.searcher.Choosing? && Affected(c.cycles, s.searcher.touched, path)
    case ChooseNothing => s.searcher.Choosing?
    case Hit => Looking(s) && KeyOf(s.searcher.path, s.searcher.i, s.searcher.amount) in s.entries
    case Miss => Looking(s) && KeyOf(s.searcher.path, s.searcher.i, s.searcher.amount) !in s.entries
                 && s.searcher.path[s.searcher.i].pool in s.db
    case Store => s.searcher.Storing? && s.searcher.i < |s.searcher.path|
    case Finish => s.searcher.Stepping? && s.searcher.i == |s.searcher.path|
  }

  /** A zero output ends the calculation. */
  function After(path: SwapPath, i: nat, output: Word): Phase {
    if output == 0 then Waiting else Stepping(path, i + 1, output)
  }

  ghost function Perform<S>(c: Context<S>, s: State<S>, a: Action<S>): State<S>
    requires Enabled(c, s, a)
  {
    match a
    case CatchUp(post) => s.(db := s.db + Restrict(post, Touched(s, post)))
    case CaughtUp => s.(updater := Streaming)
    case ApplyBlock(post) =>
      var touched := Touched(s, post);
      s.(db := s.db + Restrict(post, touched), updater := Unsent(touched))
    case Send => s.(channel := s.channel + [s.updater.touched], updater := Streaming)
    case Receive => s.(channel := s.channel[1..], searcher := Invalidating(s.channel[0], s.channel[0]))
    case Invalidate(pool) =>
      s.(entries := Without(s.entries, {pool}), searcher := s.searcher.(left := s.searcher.left - {pool}))
    case StartChoosing => s.(searcher := Choosing(s.searcher.touched))
    case Choose(path) => s.(searcher := Stepping(path, 0, AMOUNT))
    case ChooseNothing => s.(searcher := Waiting)
    case Hit =>
      var t := s.searcher;
      s.(searcher := After(t.path, t.i, s.entries[KeyOf(t.path, t.i, t.amount)]))
    case Miss =>
      var t := s.searcher;
      s.(searcher := Storing(t.path, t.i, t.amount, c.quote(s.db[t.path[t.i].pool], t.path[t.i], t.amount)))
    case Store =>
      var t := s.searcher;
      s.(entries := s.entries[KeyOf(t.path, t.i, t.amount) := t.output], searcher := After(t.path, t.i, t.output))
    case Finish => s.(searcher := Waiting)
  }

  /** A lookup asks for its key alike: the assumption that each key is asked in one direction only. */
  ghost predicate AsksAlike<S>(c: Context<S>, s: State<S>, a: Action<S>) {
    (a.Hit? || a.Miss?) && Looking(s) ==>
      AskedAlike(c.quote, c.asker, s.db, s.searcher.path[s.searcher.i], s.searcher.amount)
  }

  /** Any sequence of steps that the threads can take from `s`, in any interleaving. */
  ghost predicate ValidRun<S>(c: Context<S>, s: State<S>, actions: seq<Action<S>>)
    decreases |actions|
  {
    actions != [] ==>
      && Enabled(c, s, actions[0]) && AsksAlike(c, s, actions[0])
      && ValidRun(c, Perform(c, s, actions[0]), actions[1..])
  }

  ghost function Run<S>(c: Context<S>, s: State<S>, actions: seq<Action<S>>): State<S>
    requires ValidRun(c, s, actions)
    decreases |actions|
  {
    if actions == [] then s else Run(c, Perform(c, s, actions[0]), actions[1..])
  }

  /** The state when the threads start: nothing has been cached or sent. */
  ghost predicate Initial<S>(s: State<S>) {
    s.updater.CatchingUp? && s.channel == [] && s.searcher.Waiting? && s.entries == map[]
  }

  // ----- safety -----

  /** Pools that were written and whose invalidation is still to come. */
  ghost predicate Pending<S>(s: State<S>, pool: Address) {
    || (s.updater.Unsent? && pool in s.updater.touched)
    || (exists m :: m in s.channel && pool in m)
    || (s.searcher.Invalidating? && pool in s.searcher.left)
  }

  /** The value is what the key's step yields under the current database. */
  ghost predicate UpToDate<S>(c: Context<S>, s: State<S>, k: Key, v: Word) {
    k.pool in s.db && v == c.quote(s.db[k.pool], c.asker(k), k.amountIn)
  }

  /** Every cache entry, and the output about to be stored, is up to date or belongs to a pending pool. */
  ghost predicate Coherent<S>(c: Context<S>, s: State<S>) {
    && (s.updater.CatchingUp? ==> s.channel == [] && s.searcher.Waiting? && s.entries == map[])
    && (forall k :: k in s.entries ==> UpToDate(c, s, k, s.entries[k]) || Pending(s, k.pool))
    && (s.searcher.Storing? && s.searcher.i < |s.searcher.path| ==>
          var k := KeyOf(s.searcher.path, s.searcher.i, s.searcher.amount);
          UpToDate(c, s, k, s.searcher.output) || Pending(s, k.pool))
  }

  lemma PendingAfterSend<S>(s: State<S>, s': State<S>, pool: Address)
    requires s.updater.Unsent? && s' == s.(channel := s.channel + [s.updater.touched], updater := Streaming)
    ensures Pending(s, pool) ==> Pending(s', pool)
  {
    assert s.updater.touched in s'.channel;
    assert forall m :: m in s.channel ==> m in s'.channel;
  }

  lemma PendingAfterReceive<S>(s: State<S>, s': State<S>, pool: Address)
    requires s.searcher.Waiting? && s.channel != []
    requires s' == s.(channel := s.channel[1..], searcher := Invalidating(s.channel[0], s.channel[0]))
    ensures Pending(s, pool) ==> Pending(s', pool)
  {
    assert s.channel == [s.channel[0]] + s'.channel;
  }

  /** No step of either thread breaks coherence. */
  lemma StepKeepsCoherent<S>(c: Context<S>, s: State<S>, a: Action<S>)
    requires Coherent(c, s) && Enabled(c, s, a) && AsksAlike(c, s, a)
    ensures Coherent(c, Perform(c, s, a))
  {
    var s' := Perform(c, s, a);
    match a
    case Send =>
      forall pool ensures Pending(s, pool) ==> Pending(s', pool) {
        PendingAfterSend(s, s', pool);
      }
    case Receive =>
      forall pool ensures Pending(s, pool) ==> Pending(s', pool) {
        PendingAfterReceive(s, s', pool);
      }
    case _ =>
  }

  /** In every reachable state of every interleaving the cache is coherent. */
  lemma {:induction false} RunsStayCoherent<S>(c: Context<S>, s: State<S>, actions: seq<Action<S>>)
    requires Coherent(c, s) && ValidRun(c, s, actions)
    ensures Coherent(c, Run(c, s, actions))
    decreases |actions|
  {
    if actions != [] {
      StepKeepsCoherent(c, s, actions[0]);
      RunsStayCoherent(c, Perform(c, s, actions[0]), actions[1..]);
    }
  }

  ghost predicate NothingInFlight<S>(s: State<S>) {
    s.updater.Streaming? && s.channel == [] && s.searcher.Waiting?
  }

  /**
    Whenever nothing is in flight, whatever happened before, the cached output of every path is the output
    computed afresh from the current database.
  */
  lemma {:induction false} QuietMeansFresh<S>(c: Context<S>, s0: State<S>, actions: seq<Action<S>>, path: SwapPath)
    requires Initial(s0) && ValidRun(c, s0, actions)
    requires var s := Run(c, s0, actions);
             && NothingInFlight(s) && Calculators.Tracked(s.db, path)
             && PathAskedAlike(c.quote, c.asker, s.db, path, AMOUNT) && ZeroYieldsZero(c.quote, s.db, path)
    ensures var s := Run(c, s0, actions);
            Calculate(c.quote, s.db, path, AMOUNT, s.entries).amount == Fresh(c.quote, s.db, path, AMOUNT)
  {
    RunsStayCoherent(c, s0, actions);
    var s := Run(c, s0, actions);
    assert forall k :: k in s.entries ==> !Pending(s, k.pool);
    CachedIsFresh(c.quote, c.asker, s.db, path, AMOUNT, s.entries);
  }

  // ----- nothing is missed -----

  /** The message of the block that a step writes, if any. */
  function WrittenBy<S>(s: State<S>, a: Action<S>): seq<set<Address>> {
    if a.ApplyBlock? then [Touched(s, a.post)] else []
  }

  ghost function ReceivedBy<S>(c: Context<S>, s: State<S>, a: Action<S>): seq<set<Address>>
    requires Enabled(c, s, a)
  {
    if a.Receive? then [s.channel[0]] else []
  }

  /** The touched sets of the blocks streamed in a run, in order. */
  ghost function Written<S>(c: Context<S>, s: State<S>, actions: seq<Action<S>>): seq<set<Address>>
    requires ValidRun(c, s, actions)
    decreases |actions|
  {
    if actions == [] then [] else WrittenBy(s, actions[0]) + Written(c, Perform(c, s, actions[0]), actions[1..])
  }

  /** The messages the searcher takes up in a run, in order. */
  ghost function Received<S>(c: Context<S>, s: State<S>, actions: seq<Action<S>>): seq<set<Address>>
    requires ValidRun(c, s, actions)
    decreases |actions|
  {
    if actions == [] then [] else ReceivedBy(c, s, actions[0]) + Received(c, Perform(c, s, actions[0]), actions[1..])
  }

  function InFlight<S>(s: State<S>): seq<set<Address>> {
    s.channel + if s.updater.Unsent? then [s.updater.touched] else []
  }

  lemma StepConservesMessages<S>(c: Context<S>, s: State<S>, a: Action<S>)
    requires Enabled(c, s, a)
    ensures InFlight(s) + WrittenBy(s, a) == ReceivedBy(c, s, a) + InFlight(Perform(c, s, a))
  {
    if a.Receive? {
      assert s.channel == [s.channel[0]] + s.channel[1..];
    }
  }

  /** No message is lost, repeated or reordered: what was in flight and written is received or still in flight. */
  lemma {:induction false} MessagesAreConserved<S>(c: Context<S>, s: State<S>, actions: seq<Action<S>>)
    requires ValidRun(c, s, actions)
    ensures InFlight(s) + Written(c, s, actions) == Received(c, s, actions) + InFlight(Run(c, s, actions))
    decreases |actions|
  {
    if actions != [] {
      var a := actions[0];
      var s' := Perform(c, s, a);
      hide Perform, Enabled, InFlight, WrittenBy, ReceivedBy;
      var now, later := WrittenBy(s, a), Written(c, s', actions[1..]);
      var taken, rest := ReceivedBy(c, s, a), Received(c, s', actions[1..]);
      StepConservesMessages(c, s, a);
      MessagesAreConserved(c, s', actions[1..]);
      Regroup(InFlight(s), now, later, taken, InFlight(s'), rest, InFlight(Run(c, s', actions[1..])));
    }
  }

  lemma Regroup<T>(a: seq<T>, b: seq<T>, c: seq<T>, d: seq<T>, e: seq<T>, f: seq<T>, g: seq<T>)
    requires a + b == d + e && e + c == f + g
    ensures a + (b + c) == (d + f) + g
  {
    calc {
      a + (b + c);
      (a + b) + c;
      d + (e + c);
      (d + f) + g;
    }
  }

  /** The states of the path's pools decide its output. */
  lemma {:induction false} OutputDependsOnPools<S>(quote: Quote<S>, db: map<Address, S>, db': map<Address, S>,
                                                   path: SwapPath, amount: Word)
    requires Calculators.Tracked(db, path) && Calculators.Tracked(db', path)
    requires forall s :: s in path ==> db[s.pool] == db'[s.pool]
    ensures Debug(quote, db, path, amount) == Debug(quote, db', path, amount)
    decreases |path|
  {
    if path != [] {
      assert path[0] in path;
      OutputDependsOnPools(quote, db, db', path[1..], quote(db[path[0].pool], path[0], amount));
    }
  }

  ghost predicate SamePools<S>(db: map<Address, S>, db': map<Address, S>, path: SwapPath) {
    forall s :: s in path ==> s.pool in db && s.pool in db' && db[s.pool] == db'[s.pool]
  }

  /** A step that touches no pool of a cycle leaves their states alone. */
  lemma UntouchedPoolsStay<S>(c: Context<S>, s: State<S>, a: Action<S>, path: SwapPath)
    requires Enabled(c, s, a) && !s.updater.CatchingUp?
    requires path in c.cycles && Calculators.Tracked(s.db, path)
    requires forall m :: m in WrittenBy(s, a) ==> !Affected(c.cycles, m, path)
    ensures SamePools(s.db, Perform(c, s, a).db, path) && !Perform(c, s, a).updater.CatchingUp?
  {
    if a.ApplyBlock? {
      assert Touched(s, a.post) in WrittenBy(s, a);
    }
  }

  lemma {:induction false} UntouchedCycleStays<S>(c: Context<S>, s: State<S>, actions: seq<Action<S>>, path: SwapPath)
    requires ValidRun(c, s, actions) && !s.updater.CatchingUp?
    requires path in c.cycles && Calculators.Tracked(s.db, path)
    requires forall m :: m in Written(c, s, actions) ==> !Affected(c.cycles, m, path)
    ensures SamePools(s.db, Run(c, s, actions).db, path)
    decreases |actions|
  {
    if actions != [] {
      var s' := Perform(c, s, actions[0]);
      var now, later := WrittenBy(s, actions[0]), Written(c, s', actions[1..]);
      assert Written(c, s, actions) == now + later;
      UntouchedPoolsStay(c, s, actions[0], path);
      UntouchedCycleStays(c, s', actions[1..], path);
    }
  }

  /**
    The incremental search misses nothing.  Between two quiet states, a cycle whose output changed was affected by
    a message that the searcher received in between.
  */
  lemma {:induction false} ChangedCyclesAreAnnounced<S>(c: Context<S>, s: State<S>, actions: seq<Action<S>>,
                                                        path: SwapPath, amount: Word)
    requires ValidRun(c, s, actions) && NothingInFlight(s) && NothingInFlight(Run(c, s, actions))
    requires path in c.cycles && Calculators.Tracked(s.db, path) && Calculators.Tracked(Run(c, s, actions).db, path)
    requires Fresh(c.quote, Run(c, s, actions).db, path, amount) != Fresh(c.quote, s.db, path, amount)
    ensures exists m :: m in Received(c, s, actions) && Affected(c.cycles, m, path)
  {
    MessagesAreConserved(c, s, actions);
    var written, received := Written(c, s, actions), Received(c, s, actions);
    assert written == InFlight(s) + written == received + InFlight(Run(c, s, actions)) == received;
    if forall m :: m in Written(c, s, actions) ==> !Affected(c.cycles, m, path) {
      UntouchedCycleStays(c, s, actions, path);
      OutputDependsOnPools(c.quote, s.db, Run(c, s, actions).db, path, amount);
      assert false;
    }
  }

  /** Block by block: a cycle whose output a block changes is affected by that block's own message. */
  lemma ChangeIsInOwnMessage<S>(c: Context<S>, s: State<S>, post: map<Address, S>, path: SwapPath, amount: Word)
    requires s.updater.Streaming? && path in c.cycles && Calculators.Tracked(s.db, path)
    ensures var s' := Perform(c, s, ApplyBlock(post));
            && Calculators.Tracked(s'.db, path)
            && InFlight(s') == InFlight(s) + [Touched(s, post)]
            && (Fresh(c.quote, s'.db, path, amount) != Fresh(c.quote, s.db, path, amount)
                ==> Affected(c.cycles, Touched(s, post), path))
  {
    var a := ApplyBlock(post);
    var s' := Perform(c, s, a);
    if !Affected(c.cycles, Touched(s, post), path) {
      UntouchedPoolsStay(c, s, a, path);
      OutputDependsOnPools(c.quote, s.db, s'.db, path, amount);
    }
  }
}
