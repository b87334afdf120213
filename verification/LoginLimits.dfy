/**
 The login limiter of `portal/main.py`: five attempts per (network, email) without a success, thirty per
 network over all emails, in ten minutes. Two insertion-ordered tables, pruned key by key
 on use and all at once now and then, and capped in size by evicting the oldest entry.

 Times are whole ticks of any length; unlike the other limiters this one drops an entry exactly one window old.
 An attempt reads the clock before it takes the lock, so its reading may be up to `delay` older than one
 entered before it.
 */
module LoginLimits {
  import opened SlidingWindows

  const FAIL_LIMIT := 5
  const NET_LIMIT := 30
  const MAX_KEYS := 100_000

  // ----- an insertion-ordered dictionary of hit lists -----

  datatype Dict<K(==)> = Dict(order: seq<K>, hits: map<K, seq<int>>)

  ghost predicate NoDuplicates<K>(ks: seq<K>) {
    forall i, j :: 0 <= i < j < |ks| ==> ks[i] != ks[j]
  }

  ghost predicate WellFormed<K(!new)>(d: Dict<K>) {
    && NoDuplicates(d.order)
    && (forall k :: k in d.order <==> k in d.hits)
  }

  function Get<K(==)>(d: Dict<K>, k: K): seq<int> {
    if k in d.hits then d.hits[k] else []
  }

  function Without<K(==)>(ks: seq<K>, k: K): seq<K> {
    if ks == [] then []
    else if ks[0] == k then Without(ks[1..], k)
    else [ks[0]] + Without(ks[1..], k)
  }

  function Remove<K(==)>(d: Dict<K>, k: K): Dict<K> {
    Dict(Without(d.order, k), d.hits - {k})
  }

  /** `table[k] = hits`: a new key goes last, a known one keeps its place. */
  function Put<K(==)>(d: Dict<K>, k: K, hits: seq<int>): Dict<K> {
    Dict(if k in d.hits then d.order else d.order + [k], d.hits[k := hits])
  }

  /** `_fresh_hits`: keep the hits from `from` on, drop the entry if none are left. */
  function Refreshed<K(==)>(d: Dict<K>, k: K, from: int): Dict<K> {
    var hits := Fresh(Get(d, k), from);
    if hits != [] then Put(d, k, hits) else Remove(d, k)
  }

  /** The full prune, over a list of the keys. */
  function Swept<K(==)>(d: Dict<K>, ks: seq<K>, from: int): Dict<K> {
    if ks == [] then d else Refreshed(Swept(d, ks[..|ks| - 1], from), ks[|ks| - 1], from)
  }

  /** `_add_hit`'s eviction loop: oldest entries go until one more fits. */
  function MadeRoom<K(==)>(d: Dict<K>): Dict<K>
    decreases |d.order|
  {
    if |d.order| < MAX_KEYS then d
    else MadeRoom(Dict(d.order[1..], d.hits - {d.order[0]}))
  }

  predicate WouldEvict<K(==)>(d: Dict<K>, k: K) {
    k !in d.hits && |d.order| >= MAX_KEYS
  }

  /** `_add_hit`. */
  function Added<K(==)>(d: Dict<K>, k: K, now: int): Dict<K> {
    var d' := if k in d.hits then d else MadeRoom(d);
    Put(d', k, Get(d', k) + [now])
  }

  // ----- dictionary proofs -----

  lemma {:induction false} WithoutFacts<K(!new)>(ks: seq<K>, k: K)
    ensures forall x :: x in Without(ks, k) <==> x in ks && x != k
    ensures |Without(ks, k)| <= |ks|
    ensures NoDuplicates(ks) ==> NoDuplicates(Without(ks, k))
  {
    if ks != [] {
      WithoutFacts(ks[1..], k);
      if NoDuplicates(ks) {
        assert ks[0] !in ks[1..];
      }
    }
  }

  lemma RemoveFacts<K(!new)>(d: Dict<K>, k: K)
    requires WellFormed(d)
    ensures WellFormed(Remove(d, k)) && |Remove(d, k).order| <= |d.order|
    ensures Get(Remove(d, k), k) == [] && forall x :: x != k ==> Get(Remove(d, k), x) == Get(d, x)
  {
    WithoutFacts(d.order, k);
  }

  lemma RefreshedFacts<K(!new)>(d: Dict<K>, k: K, from: int)
    requires WellFormed(d)
    ensures WellFormed(Refreshed(d, k, from)) && |Refreshed(d, k, from).order| <= |d.order|
    ensures Get(Refreshed(d, k, from), k) == Fresh(Get(d, k), from)
    ensures forall x :: x != k ==> Get(Refreshed(d, k, from), x) == Get(d, x)
  {
    RemoveFacts(d, k);
  }

  lemma {:induction false} FreshTwice(s: seq<int>, from: int)
    ensures Fresh(Fresh(s, from), from) == Fresh(s, from)
  {
    if s != [] {
      var before := s[..|s| - 1];
      FreshTwice(before, from);
      var f := Fresh(before, from) + [s[|s| - 1]];
      assert f[..|f| - 1] == Fresh(before, from);
      assert Fresh(before, from) + [] == Fresh(before, from);
    }
  }

  lemma {:induction false} SweptFacts<K(!new)>(d: Dict<K>, ks: seq<K>, from: int)
    requires WellFormed(d)
    ensures WellFormed(Swept(d, ks, from)) && |Swept(d, ks, from).order| <= |d.order|
    ensures forall x :: Get(Swept(d, ks, from), x) == if x in ks then Fresh(Get(d, x), from) else Get(d, x)
  {
    if ks != [] {
      var before, k := ks[..|ks| - 1], ks[|ks| - 1];
      SweptFacts(d, before, from);
      RefreshedFacts(Swept(d, before, from), k, from);
      FreshTwice(Get(d, k), from);
      assert ks == before + [k];
    }
  }

  lemma {:induction false} MadeRoomFacts<K(!new)>(d: Dict<K>)
    requires WellFormed(d)
    ensures WellFormed(MadeRoom(d)) && |MadeRoom(d).order| < MAX_KEYS
    ensures |d.order| < MAX_KEYS ==> MadeRoom(d) == d
    ensures forall x :: x in MadeRoom(d).hits ==> x in d.hits && MadeRoom(d).hits[x] == d.hits[x]
    decreases |d.order|
  {
    if |d.order| >= MAX_KEYS {
      var d' := Dict(d.order[1..], d.hits - {d.order[0]});
      assert d.order == [d.order[0]] + d.order[1..];
      MadeRoomFacts(d');
    }
  }

  lemma {:induction false} NewestStay<K(!new)>(d: Dict<K>)
    requires |d.order| >= MAX_KEYS
    ensures MadeRoom(d).order == d.order[|d.order| - MAX_KEYS + 1..]
    decreases |d.order|
  {
    if |d.order| > MAX_KEYS {
      NewestStay(Dict(d.order[1..], d.hits - {d.order[0]}));
    }
  }

  lemma AddedFacts<K(!new)>(d: Dict<K>, k: K, now: int)
    requires WellFormed(d) && |d.order| <= MAX_KEYS
    ensures WellFormed(Added(d, k, now)) && |Added(d, k, now).order| <= MAX_KEYS
    ensures Get(Added(d, k, now), k) == Get(d, k) + [now]
    ensures forall x :: x != k ==> Get(Added(d, k, now), x) == Get(d, x) || Get(Added(d, k, now), x) == []
    ensures !WouldEvict(d, k) ==> forall x :: x != k ==> Get(Added(d, k, now), x) == Get(d, x)
  {
    MadeRoomFacts(d);
  }

  /** A hit pushes entries out if and only if its key is new and the table full, and then the oldest go. */
  lemma OldestGoIff<K(!new)>(d: Dict<K>, k: K, now: int)
    requires WellFormed(d)
    ensures WouldEvict(d, k) <==> exists x :: x in d.hits && x !in Added(d, k, now).hits
    ensures WouldEvict(d, k) ==> Added(d, k, now).order == d.order[|d.order| - MAX_KEYS + 1..] + [k]
  {
    MadeRoomFacts(d);
    if WouldEvict(d, k) {
      NewestStay(d);
      var oldest := d.order[0];
      assert oldest in d.hits && oldest !in d.order[1..];
      assert oldest !in Added(d, k, now).order;
      assert WellFormed(Added(d, k, now));
    }
  }

  // ----- the limiter -----

  /** Ten minutes and thirty seconds, in ticks. */
  datatype Timing = Timing(window: nat, sweepEvery: nat)

  datatype Account = Account(net: string, email: string)

  datatype State = State(fails: Dict<Account>, nets: Dict<string>, lastSweep: int)

  function Init(): State {
    State(Dict([], map[]), Dict([], map[]), 0)
  }

  datatype Event = Attempt(key: Account, now: int) | Success(key: Account)

  /** The first tick inside the window that ends at `now`. */
  function From(w: Timing, now: int): int {
    now - w.window + 1
  }

  /** A hit counts exactly if it is newer than the one a full window old. */
  lemma CountsIff(w: Timing, t: int, now: int)
    ensures t >= From(w, now) <==> now - t < w.window
  {
  }

  /** The tables after the periodic full prune. */
  function AfterSweep(w: Timing, s: State, now: int): State {
    if now - s.lastSweep > w.sweepEvery then
      State(Swept(s.fails, s.fails.order, From(w, now)), Swept(s.nets, s.nets.order, From(w, now)), now)
    else s
  }

  /** `_reserve_login_attempt`: the answer and the tables afterwards. */
  function Reserve(w: Timing, s0: State, key: Account, now: int): (bool, State) {
    var s := AfterSweep(w, s0, now);
    var nets := Refreshed(s.nets, key.net, From(w, now));
    if |Get(nets, key.net)| >= NET_LIMIT then (false, s.(nets := nets)) else
    var fails := Refreshed(s.fails, key, From(w, now));
    if |Get(fails, key)| >= FAIL_LIMIT then (false, s.(nets := nets, fails := fails))
    else (true, s.(nets := Added(nets, key.net, now), fails := Added(fails, key, now)))
  }

  /** `_clear_login_failures`. */
  function Clear(s: State, key: Account): State {
    var fails := Remove(s.fails, key);
    var hits := Get(s.nets, key.net);
    if hits != [] then s.(fails := fails, nets := Put(s.nets, key.net, hits[..|hits| - 1]))
    else s.(fails := fails)
  }

  function Step(w: Timing, s: State, e: Event): State {
    match e
    case Attempt(key, now) => Reserve(w, s, key, now).1
    case Success(key) => Clear(s, key)
  }

  function Run(w: Timing, es: seq<Event>): State {
    if es == [] then Init() else Step(w, Run(w, es[..|es| - 1]), es[|es| - 1])
  }

  /** The program's answer to an attempt that follows the events. */
  predicate Allows(w: Timing, es: seq<Event>, key: Account, now: int) {
    Reserve(w, Run(w, es), key, now).0
  }

  /** Adding the attempt's hits would push an entry out of a full table. */
  predicate Evicts(w: Timing, s0: State, key: Account, now: int) {
    var s := AfterSweep(w, s0, now);
    Reserve(w, s0, key, now).0
    && (|| WouldEvict(Refreshed(s.nets, key.net, From(w, now)), key.net)
        || WouldEvict(Refreshed(s.fails, key, From(w, now)), key))
  }

  // ----- bounds that hold in every run -----

  /** A well-formed table within its cap, with lists of at most `limit` hits. */
  ghost predicate Fits<K(!new)>(d: Dict<K>, limit: nat) {
    WellFormed(d) && |d.order| <= MAX_KEYS && forall k :: |Get(d, k)| <= limit
  }

  ghost predicate Bounded(s: State) {
    Fits(s.fails, FAIL_LIMIT) && Fits(s.nets, NET_LIMIT)
  }

  lemma SweptFits<K(!new)>(d: Dict<K>, ks: seq<K>, from: int, limit: nat)
    requires Fits(d, limit)
    ensures Fits(Swept(d, ks, from), limit)
  {
    SweptFacts(d, ks, from);
    forall k ensures |Get(Swept(d, ks, from), k)| <= limit { FreshEntries(Get(d, k), from); }
  }

  lemma RefreshedFits<K(!new)>(d: Dict<K>, k: K, from: int, limit: nat)
    requires Fits(d, limit)
    ensures Fits(Refreshed(d, k, from), limit)
  {
    RefreshedFacts(d, k, from);
    FreshEntries(Get(d, k), from);
  }

  lemma AddedFits<K(!new)>(d: Dict<K>, k: K, now: int, limit: nat)
    requires Fits(d, limit) && |Get(d, k)| < limit
    ensures Fits(Added(d, k, now), limit)
  {
    AddedFacts(d, k, now);
  }

  lemma SweepKeepsBounds(w: Timing, s: State, now: int)
    requires Bounded(s)
    ensures Bounded(AfterSweep(w, s, now))
  {
    SweptFits(s.fails, s.fails.order, From(w, now), FAIL_LIMIT);
    SweptFits(s.nets, s.nets.order, From(w, now), NET_LIMIT);
  }

  lemma ReserveKeepsBounds(w: Timing, s0: State, key: Account, now: int)
    requires Bounded(s0)
    ensures Bounded(Reserve(w, s0, key, now).1)
  {
    var s := AfterSweep(w, s0, now);
    SweepKeepsBounds(w, s0, now);
    RefreshedFits(s.nets, key.net, From(w, now), NET_LIMIT);
    RefreshedFits(s.fails, key, From(w, now), FAIL_LIMIT);
    var nets, fails := Refreshed(s.nets, key.net, From(w, now)), Refreshed(s.fails, key, From(w, now));
    if |Get(nets, key.net)| < NET_LIMIT && |Get(fails, key)| < FAIL_LIMIT {
      AddedFits(nets, key.net, now, NET_LIMIT);
      AddedFits(fails, key, now, FAIL_LIMIT);
    }
  }

  lemma ClearKeepsBounds(s: State, key: Account)
    requires Bounded(s)
    ensures Bounded(Clear(s, key))
  {
    RemoveFacts(s.fails, key);
    forall k ensures |Get(Clear(s, key).nets, k)| <= NET_LIMIT { assert |Get(s.nets, k)| <= NET_LIMIT; }
    forall k ensures |Get(Clear(s, key).fails, k)| <= FAIL_LIMIT { assert |Get(s.fails, k)| <= FAIL_LIMIT; }
  }

  /** In every run, evictions or not, each list stays within its limit and each table within its cap. */
  lemma {:induction false} TablesStayBounded(w: Timing, es: seq<Event>)
    ensures Bounded(Run(w, es))
  {
    if es != [] {
      var before, e := es[..|es| - 1], es[|es| - 1];
      TablesStayBounded(w, before);
      match e
      case Attempt(key, now) => ReserveKeepsBounds(w, Run(w, before), key, now);
      case Success(key) => ClearKeepsBounds(Run(w, before), key);
    }
  }

  // ----- decisions against the full history -----

  function Grown(hist: seq<int>, t: int, grows: bool): seq<int> {
    if grows then hist + [t] else hist
  }

  /** The attempts ever allowed from a network, newest last; each success from it takes the newest back. */
  function NetHistory(w: Timing, es: seq<Event>, net: string): seq<int> {
    if es == [] then [] else
    var before := es[..|es| - 1];
    var h := NetHistory(w, before, net);
    match es[|es| - 1]
    case Attempt(key, now) => Grown(h, now, key.net == net && Allows(w, before, key, now))
    case Success(key) => if key.net == net then Popped(h, 1) else h
  }

  /** The attempts allowed for one account since its last success. */
  function FailHistory(w: Timing, es: seq<Event>, key: Account): seq<int> {
    if es == [] then [] else
    var before := es[..|es| - 1];
    var h := FailHistory(w, before, key);
    match es[|es| - 1]
    case Attempt(k, now) => Grown(h, now, k == key && Allows(w, before, k, now))
    case Success(k) => if k == key then [] else h
  }

  /** No reading is more than `delay` older than one entered before it, nor is `now`, read next. */
  ghost predicate ReadBy(es: seq<Event>, now: int, delay: nat) {
    && (forall i :: 0 <= i < |es| && es[i].Attempt? ==> es[i].now <= now + delay)
    && (forall i, j :: 0 <= i < j < |es| && es[i].Attempt? && es[j].Attempt? ==> es[i].now <= es[j].now + delay)
  }

  ghost predicate NoEvictions(w: Timing, es: seq<Event>) {
    forall i :: 0 <= i < |es| && es[i].Attempt? ==> !Evicts(w, Run(w, es[..i]), es[i].key, es[i].now)
  }

  /**
   A key's list against its history. A filtered hit takes with it, from what is known to match, earlier ones up
   to `delay` newer, which costs a second delay.
   */
  ghost predicate Sound(w: Timing, hist: seq<int>, list: seq<int>, now: int, delay: nat) {
    Linked(hist, list, From(w, now) + 2 * delay, delay) && AllAtMost(hist, now + delay)
  }

  ghost predicate AllSound(w: Timing, es: seq<Event>, s: State, now: int, delay: nat) {
    && (forall net :: Sound(w, NetHistory(w, es, net), Get(s.nets, net), now, delay))
    && (forall key :: Sound(w, FailHistory(w, es, key), Get(s.fails, key), now, delay))
  }

  lemma FilterKeepsSound(w: Timing, hist: seq<int>, list: seq<int>, t: int, now: int, delay: nat)
    requires Sound(w, hist, list, now, delay) && t <= now + delay
    ensures Sound(w, hist, Fresh(list, From(w, t)), now, delay)
  {
    FilterKeepsLink(hist, list, From(w, t), From(w, now) + 2 * delay, delay);
  }

  lemma PushKeepsSound(w: Timing, hist: seq<int>, list: seq<int>, t: int, now: int, delay: nat)
    requires Sound(w, hist, list, now, delay) && AllAtMost(hist, t + delay) && t <= now + delay
    ensures Sound(w, hist + [t], list + [t], now, delay)
  {
    PushOne(hist, list, t, From(w, now) + 2 * delay, delay);
  }

  lemma PopKeepsSound(w: Timing, hist: seq<int>, list: seq<int>, now: int, delay: nat)
    requires Sound(w, hist, list, now, delay)
    ensures Sound(w, Popped(hist, 1), Popped(list, 1), now, delay)
  {
    PopOne(hist, list, From(w, now) + 2 * delay, delay);
  }

  lemma SweptKeepsSound<K(!new)>(w: Timing, d: Dict<K>, k: K, hist: seq<int>, t: int, now: int, delay: nat)
    requires WellFormed(d) && Sound(w, hist, Get(d, k), now, delay) && t <= now + delay
    ensures Sound(w, hist, Get(Swept(d, d.order, From(w, t)), k), now, delay)
  {
    SweptFacts(d, d.order, From(w, t));
    FilterKeepsSound(w, hist, Get(d, k), t, now, delay);
  }

  /** The full prune leaves every link in place. */
  lemma SweepKeepsSound(w: Timing, es: seq<Event>, s: State, t: int, now: int, delay: nat)
    requires AllSound(w, es, s, now, delay) && Bounded(s) && t <= now + delay
    ensures AllSound(w, es, AfterSweep(w, s, t), now, delay)
  {
    forall net ensures Sound(w, NetHistory(w, es, net), Get(AfterSweep(w, s, t).nets, net), now, delay) {
      SweptKeepsSound(w, s.nets, net, NetHistory(w, es, net), t, now, delay);
    }
    forall key ensures Sound(w, FailHistory(w, es, key), Get(AfterSweep(w, s, t).fails, key), now, delay) {
      SweptKeepsSound(w, s.fails, key, FailHistory(w, es, key), t, now, delay);
    }
  }

  /** Refreshing key `k` of a table, and then adding a hit to it, keeps the link of any key `x`. */
  lemma AddedKeepsSound<K(!new)>(w: Timing, d: Dict<K>, k: K, x: K, hist: seq<int>, t: int, now: int,
                                 delay: nat, limit: nat)
    requires Fits(d, limit) && Sound(w, hist, Get(d, x), now, delay) && AllAtMost(hist, t + delay) && t <= now + delay
    ensures var d' := Refreshed(d, k, From(w, t));
            && Sound(w, hist, Get(d', x), now, delay)
            && (!WouldEvict(d', k) ==> Sound(w, Grown(hist, t, x == k), Get(Added(d', k, t), x), now, delay))
  {
    var d' := Refreshed(d, k, From(w, t));
    RefreshedFacts(d, k, From(w, t));
    FilterKeepsSound(w, hist, Get(d, x), t, now, delay);
    AddedFacts(d', k, t);
    PushKeepsSound(w, hist, Get(d', x), t, now, delay);
  }

  lemma HistoriesAfterAttempt(w: Timing, es: seq<Event>, key: Account, t: int)
    ensures forall net :: NetHistory(w, es + [Attempt(key, t)], net) ==
                          Grown(NetHistory(w, es, net), t, key.net == net && Allows(w, es, key, t))
    ensures forall k :: FailHistory(w, es + [Attempt(key, t)], k) ==
                        Grown(FailHistory(w, es, k), t, key == k && Allows(w, es, key, t))
  {
    assert (es + [Attempt(key, t)])[..|es|] == es;
  }

  /** The tables after an attempt, for the two answers. */
  lemma ReservedTables(w: Timing, s0: State, key: Account, now: int)
    ensures var s := AfterSweep(w, s0, now);
            var (ok, t) := Reserve(w, s0, key, now);
            var nets, fails := Refreshed(s.nets, key.net, From(w, now)), Refreshed(s.fails, key, From(w, now));
            && t.nets == (if ok then Added(nets, key.net, now) else nets)
            && (t.fails == (if ok then Added(fails, key, now) else fails) || (!ok && t.fails == s.fails))
            && (ok <==> |Get(nets, key.net)| < NET_LIMIT && |Get(fails, key)| < FAIL_LIMIT)
  {
  }

  /** An attempt evicts if and only if an entry that the pruning has left is gone when it is allowed. */
  lemma EvictsIff(w: Timing, s0: State, key: Account, now: int)
    requires Bounded(s0)
    ensures var s := AfterSweep(w, s0, now);
            var (ok, t) := Reserve(w, s0, key, now);
            var nets, fails := Refreshed(s.nets, key.net, From(w, now)), Refreshed(s.fails, key, From(w, now));
            Evicts(w, s0, key, now) <==>
            && ok
            && (|| (exists x :: x in nets.hits && x !in t.nets.hits)
                || (exists x :: x in fails.hits && x !in t.fails.hits))
  {
    SweepKeepsBounds(w, s0, now);
    var s := AfterSweep(w, s0, now);
    RefreshedFacts(s.nets, key.net, From(w, now));
    RefreshedFacts(s.fails, key, From(w, now));
    OldestGoIff(Refreshed(s.nets, key.net, From(w, now)), key.net, now);
    OldestGoIff(Refreshed(s.fails, key, From(w, now)), key, now);
    ReservedTables(w, s0, key, now);
  }

  lemma ReserveKeepsNet(w: Timing, es: seq<Event>, key: Account, t: int, net: string, now: int, delay: nat)
    requires AllSound(w, es, Run(w, es), now, delay) && Bounded(Run(w, es)) && !Evicts(w, Run(w, es), key, t)
    requires t <= now + delay && AllAtMost(NetHistory(w, es, net), t + delay)
    ensures Sound(w, NetHistory(w, es + [Attempt(key, t)], net), Get(Reserve(w, Run(w, es), key, t).1.nets, net),
                  now, delay)
  {
    SweepKeepsSound(w, es, Run(w, es), t, now, delay);
    SweepKeepsBounds(w, Run(w, es), t);
    ReservedTables(w, Run(w, es), key, t);
    HistoriesAfterAttempt(w, es, key, t);
    AddedKeepsSound(w, AfterSweep(w, Run(w, es), t).nets, key.net, net, NetHistory(w, es, net), t, now, delay,
                    NET_LIMIT);
  }

  lemma ReserveKeepsFail(w: Timing, es: seq<Event>, key: Account, t: int, k: Account, now: int, delay: nat)
    requires AllSound(w, es, Run(w, es), now, delay) && Bounded(Run(w, es)) && !Evicts(w, Run(w, es), key, t)
    requires t <= now + delay && AllAtMost(FailHistory(w, es, k), t + delay)
    ensures Sound(w, FailHistory(w, es + [Attempt(key, t)], k), Get(Reserve(w, Run(w, es), key, t).1.fails, k),
                  now, delay)
  {
    SweepKeepsSound(w, es, Run(w, es), t, now, delay);
    SweepKeepsBounds(w, Run(w, es), t);
    ReservedTables(w, Run(w, es), key, t);
    HistoriesAfterAttempt(w, es, key, t);
    AddedKeepsSound(w, AfterSweep(w, Run(w, es), t).fails, key, k, FailHistory(w, es, k), t, now, delay, FAIL_LIMIT);
  }

  lemma HistoriesAfterSuccess(w: Timing, es: seq<Event>, key: Account)
    ensures forall net :: NetHistory(w, es + [Success(key)], net) ==
                          if key.net == net then Popped(NetHistory(w, es, net), 1) else NetHistory(w, es, net)
    ensures forall k :: FailHistory(w, es + [Success(key)], k) == if k == key then [] else FailHistory(w, es, k)
  {
    assert (es + [Success(key)])[..|es|] == es;
  }

  /** The lists of the tables after a success. */
  lemma ClearedTables(s: State, key: Account)
    requires WellFormed(s.fails)
    ensures forall net :: Get(Clear(s, key).nets, net) ==
                          if net == key.net then Popped(Get(s.nets, net), 1) else Get(s.nets, net)
    ensures forall k :: Get(Clear(s, key).fails, k) == if k == key then [] else Get(s.fails, k)
  {
    RemoveFacts(s.fails, key);
  }

  lemma ClearKeepsSound(w: Timing, es: seq<Event>, s: State, key: Account, now: int, delay: nat)
    requires AllSound(w, es, s, now, delay) && Bounded(s)
    ensures AllSound(w, es + [Success(key)], Clear(s, key), now, delay)
  {
    HistoriesAfterSuccess(w, es, key);
    ClearedTables(s, key);
    forall net ensures Sound(w, NetHistory(w, es + [Success(key)], net), Get(Clear(s, key).nets, net), now, delay) {
      PopKeepsSound(w, NetHistory(w, es, net), Get(s.nets, net), now, delay);
    }
    forall k ensures Sound(w, FailHistory(w, es + [Success(key)], k), Get(Clear(s, key).fails, k), now, delay) {
      assert Sound(w, FailHistory(w, es, k), Get(s.fails, k), now, delay);
    }
  }

  lemma NoEvictionsBefore(w: Timing, es: seq<Event>)
    requires es != [] && NoEvictions(w, es)
    ensures var before, e := es[..|es| - 1], es[|es| - 1];
            NoEvictions(w, before) && (e.Attempt? ==> !Evicts(w, Run(w, before), e.key, e.now))
  {
    var before := es[..|es| - 1];
    forall i | 0 <= i < |before| && before[i].Attempt?
      ensures !Evicts(w, Run(w, before[..i]), before[i].key, before[i].now)
    {
      assert before[..i] == es[..i] && before[i] == es[i];
    }
  }

  lemma ReadBefore(es: seq<Event>, now: int, delay: nat)
    requires es != [] && ReadBy(es, now, delay)
    ensures ReadBy(es[..|es| - 1], now, delay)
    ensures es[|es| - 1].Attempt? ==> es[|es| - 1].now <= now + delay && ReadBy(es[..|es| - 1], es[|es| - 1].now, delay)
  {
  }

  /** No history holds a reading much newer than the next one. */
  lemma {:induction false} HistoriesAtMost(w: Timing, es: seq<Event>, t: int, delay: nat)
    requires ReadBy(es, t, delay)
    ensures forall net :: AllAtMost(NetHistory(w, es, net), t + delay)
    ensures forall key :: AllAtMost(FailHistory(w, es, key), t + delay)
  {
    if es != [] {
      ReadBefore(es, t, delay);
      HistoriesAtMost(w, es[..|es| - 1], t, delay);
    }
  }

  lemma ReserveKeepsSound(w: Timing, es: seq<Event>, key: Account, t: int, now: int, delay: nat)
    requires AllSound(w, es, Run(w, es), now, delay) && Bounded(Run(w, es)) && !Evicts(w, Run(w, es), key, t)
    requires t <= now + delay && ReadBy(es, t, delay)
    ensures AllSound(w, es + [Attempt(key, t)], Reserve(w, Run(w, es), key, t).1, now, delay)
  {
    HistoriesAtMost(w, es, t, delay);
    forall net
      ensures Sound(w, NetHistory(w, es + [Attempt(key, t)], net), Get(Reserve(w, Run(w, es), key, t).1.nets, net),
                    now, delay)
    {
      ReserveKeepsNet(w, es, key, t, net, now, delay);
    }
    forall k
      ensures Sound(w, FailHistory(w, es + [Attempt(key, t)], k), Get(Reserve(w, Run(w, es), key, t).1.fails, k),
                    now, delay)
    {
      ReserveKeepsFail(w, es, key, t, k, now, delay);
    }
  }

  lemma {:induction false} TablesAreSound(w: Timing, es: seq<Event>, now: int, delay: nat)
    requires ReadBy(es, now, delay) && NoEvictions(w, es)
    ensures AllSound(w, es, Run(w, es), now, delay)
  {
    if es != [] {
      var before, e := es[..|es| - 1], es[|es| - 1];
      assert es == before + [e];
      NoEvictionsBefore(w, es);
      ReadBefore(es, now, delay);
      TablesStayBounded(w, before);
      TablesAreSound(w, before, now, delay);
      match e
      case Attempt(key, t) => ReserveKeepsSound(w, before, key, t, now, delay);
      case Success(key) => ClearKeepsSound(w, before, Run(w, before), key, now, delay);
    }
  }

  /** A key's list, pruned at `now`, counts between two counts of its history. */
  ghost predicate Brackets(w: Timing, hist: seq<int>, list: seq<int>, now: int, delay: nat) {
    && CountWithin(hist, From(w, now) + 2 * delay, now + delay) <= |Fresh(list, From(w, now))|
    && |Fresh(list, From(w, now))| <= CountWithin(hist, From(w, now), now + delay)
  }

  lemma ListIsBracketed(w: Timing, hist: seq<int>, list: seq<int>, now: int, delay: nat)
    requires Sound(w, hist, list, now, delay)
    ensures Brackets(w, hist, list, now, delay)
  {
    var c := From(w, now);
    AlignedFresh(hist, list, c + 2 * delay, c + 2 * delay);
    FreshFromEarlier(list, c, c + 2 * delay);
    SubFresh(list, hist, c);
    FreshIsCount(hist, c, now + delay);
    FreshIsCount(hist, c + 2 * delay, now + delay);
  }

  /** What the two tests of an attempt look at. */
  lemma ReserveLooksAt(w: Timing, es: seq<Event>, key: Account, now: int, delay: nat)
    returns (nets: seq<int>, fails: seq<int>)
    requires AllSound(w, es, Run(w, es), now, delay) && Bounded(Run(w, es))
    ensures Brackets(w, NetHistory(w, es, key.net), nets, now, delay)
            && Brackets(w, FailHistory(w, es, key), fails, now, delay)
    ensures Allows(w, es, key, now) <==>
            |Fresh(nets, From(w, now))| < NET_LIMIT && |Fresh(fails, From(w, now))| < FAIL_LIMIT
  {
    var s := AfterSweep(w, Run(w, es), now);
    SweepKeepsSound(w, es, Run(w, es), now, now, delay);
    SweepKeepsBounds(w, Run(w, es), now);
    RefreshedFacts(s.nets, key.net, From(w, now));
    RefreshedFacts(s.fails, key, From(w, now));
    ReservedTables(w, Run(w, es), key, now);
    nets, fails := Get(s.nets, key.net), Get(s.fails, key);
    ListIsBracketed(w, NetHistory(w, es, key.net), nets, now, delay);
    ListIsBracketed(w, FailHistory(w, es, key), fails, now, delay);
  }

  /** The ideal rule over a history: under both limits, counting hits from `from` on. */
  predicate UnderBoth(w: Timing, es: seq<Event>, key: Account, from: int, to: int) {
    && CountWithin(NetHistory(w, es, key.net), from, to) < NET_LIMIT
    && CountWithin(FailHistory(w, es, key), from, to) < FAIL_LIMIT
  }

  lemma BracketsDecide(w: Timing, es: seq<Event>, key: Account, now: int, delay: nat, nets: seq<int>, fails: seq<int>)
    requires Brackets(w, NetHistory(w, es, key.net), nets, now, delay)
             && Brackets(w, FailHistory(w, es, key), fails, now, delay)
    ensures var ok := |Fresh(nets, From(w, now))| < NET_LIMIT && |Fresh(fails, From(w, now))| < FAIL_LIMIT;
            && (ok ==> UnderBoth(w, es, key, From(w, now) + 2 * delay, now + delay))
            && (!ok ==> !UnderBoth(w, es, key, From(w, now), now + delay))
  {
  }

  lemma AnswerIsRight(w: Timing, es: seq<Event>, key: Account, now: int, delay: nat)
    requires ReadBy(es, now, delay) && NoEvictions(w, es)
    ensures Allows(w, es, key, now) ==> UnderBoth(w, es, key, From(w, now) + 2 * delay, now + delay)
    ensures !Allows(w, es, key, now) ==> !UnderBoth(w, es, key, From(w, now), now + delay)
    ensures delay == 0 ==> (Allows(w, es, key, now) <==> UnderBoth(w, es, key, From(w, now), now))
  {
    TablesStayBounded(w, es);
    TablesAreSound(w, es, now, delay);
    var nets, fails := ReserveLooksAt(w, es, key, now, delay);
    BracketsDecide(w, es, key, now, delay, nets, fails);
  }

  /**
   While no entry has been evicted, and with readings at most `delay` old: an allowed attempt finds its network
   under thirty attempts, successes taken back, and its account under five since its last success, in a window
   shortened by twice the delay; a refused one finds one of the limits reached in the full window. With
   readings in order, it is refused exactly then; the per-key pruning and the periodic full prune never change
   an answer.
   */
  lemma DecidesAsFullHistory(w: Timing, es: seq<Event>, key: Account, now: int, delay: nat)
    requires ReadBy(es, now, delay)
    requires forall i :: 0 <= i < |es| && es[i].Attempt? ==> !Evicts(w, Run(w, es[..i]), es[i].key, es[i].now)
    ensures Allows(w, es, key, now) ==> UnderBoth(w, es, key, From(w, now) + 2 * delay, now + delay)
    ensures !Allows(w, es, key, now) ==> !UnderBoth(w, es, key, From(w, now), now + delay)
    ensures delay == 0 ==> (Allows(w, es, key, now) <==> UnderBoth(w, es, key, From(w, now), now))
  {
    AnswerIsRight(w, es, key, now, delay);
  }

  // ----- the module's tables -----

  method SweepTable<K(==)>(d: Dict<K>, from: int) returns (out: Dict<K>)
    ensures out == Swept(d, d.order, from)
  {
    out := d;
    for i := 0 to |d.order|
      invariant out == Swept(d, d.order[..i], from)
    {
      assert d.order[..i + 1][..i] == d.order[..i];
      out := Refreshed(out, d.order[i], from);
    }
    assert d.order[..|d.order|] == d.order;
  }

  method AddHit<K(==)>(d: Dict<K>, k: K, now: int) returns (out: Dict<K>)
    ensures out == Added(d, k, now)
  {
    out := d;
    if k !in d.hits {
      while |out.order| >= MAX_KEYS
        invariant MadeRoom(out) == MadeRoom(d)
        decreases |out.order|
      {
        out := Dict(out.order[1..], out.hits - {out.order[0]});
      }
    }
    out := Put(out, k, Get(out, k) + [now]);
  }

  class Limiter {
    const w: Timing
    var fails: Dict<Account>
    var nets: Dict<string>
    var lastSweep: int

    function Value(): State
      reads this
    {
      State(fails, nets, lastSweep)
    }

    constructor (w: Timing)
      ensures this.w == w && Value() == Init()
    {
      this.w := w;
      fails, nets, lastSweep := Dict([], map[]), Dict([], map[]), 0;
    }

    method ReserveAttempt(key: Account, now: int) returns (ok: bool)
      modifies this
      ensures (ok, Value()) == Reserve(w, old(Value()), key, now)
    {
      var from := From(w, now);
      if now - lastSweep > w.sweepEvery {
        fails := SweepTable(fails, from);
        nets := SweepTable(nets, from);
        lastSweep := now;
      }
      nets := Refreshed(nets, key.net, from);
      if |Get(nets, key.net)| >= NET_LIMIT {
        return false;
      }
      fails := Refreshed(fails, key, from);
      if |Get(fails, key)| >= FAIL_LIMIT {
        return false;
      }
      fails := AddHit(fails, key, now);
      nets := AddHit(nets, key.net, now);
      return true;
    }

    method ClearFailures(key: Account)
      modifies this
      ensures Value() == Clear(old(Value()), key)
    {
      fails := Remove(fails, key);
      var hits := Get(nets, key.net);
      if hits != [] {
        nets := Put(nets, key.net, hits[..|hits| - 1]);
      }
    }
  }
}
