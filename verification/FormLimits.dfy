/**
 The public forms limiter of `portal/forms.py`: one pruned deque per (address, app, form), and a
 garbage collection of whole entries once the table is large.

 Times are whole ticks of any length, `window` of them to the limiter's ten minutes. A submission reads the
 clock before it takes the lock, so its reading may be up to `delay` older than one entered before it.
 */
module FormLimits {
  import opened Basics
  import opened SlidingWindows

  const LIMIT := 10
  const MAX_KEYS := 4096

  datatype Key = Key(ip: string, slug: string, form: string)

  datatype Attempt = Attempt(key: Key, now: int)

  type Table = map<Key, seq<int>>

  function Hits(t: Table, k: Key): seq<int> {
    if k in t then t[k] else []
  }

  /** Drops the entries that are empty or whose newest hit has left the window. */
  function Collected(t: Table, cutoff: int): Table {
    map k | k in t && t[k] != [] && t[k][|t[k]| - 1] >= cutoff :: t[k]
  }

  /** `_rate_ok`: the answer and the table afterwards. */
  function RateOk(window: nat, t: Table, a: Attempt): (bool, Table) {
    var cutoff := a.now - window;
    var recent := Dropped(Hits(t, a.key), cutoff);
    if |recent| >= LIMIT then (false, t[a.key := recent]) else
    var t' := t[a.key := recent + [a.now]];
    (true, if |t'| > MAX_KEYS then Collected(t', cutoff) else t')
  }

  lemma CollectedAre(t: Table, cutoff: int, k: Key)
    ensures k in Collected(t, cutoff) <==> k in t && t[k] != [] && cutoff <= t[k][|t[k]| - 1]
    ensures k in Collected(t, cutoff) ==> Collected(t, cutoff)[k] == t[k]
  {
  }

  lemma StillLarge(t: Table, k: Key, hits: seq<int>)
    ensures |t| <= |t[k := hits]|
  {
    SubsetSize(t.Keys, t[k := hits].Keys);
  }

  /** What collecting is for: in a large table just the keys hit within the window are left, hits and all. */
  lemma CollectionDropsTheIdle(window: nat, t: Table, a: Attempt, k: Key)
    requires k != a.key && RateOk(window, t, a).0
    ensures k in RateOk(window, t, a).1 ==> k in t && RateOk(window, t, a).1[k] == t[k]
    ensures |t| > MAX_KEYS ==>
              (k in RateOk(window, t, a).1 <==> k in t && t[k] != [] && a.now - window <= t[k][|t[k]| - 1])
  {
    var hits := Dropped(Hits(t, a.key), a.now - window) + [a.now];
    StillLarge(t, a.key, hits);
    CollectedAre(t[a.key := hits], a.now - window, k);
  }

  function TableAfter(window: nat, es: seq<Attempt>): Table {
    if es == [] then map[] else RateOk(window, TableAfter(window, es[..|es| - 1]), es[|es| - 1]).1
  }

  /** The program's answer to a submission that follows the others. */
  predicate Accepts(window: nat, es: seq<Attempt>, a: Attempt) {
    RateOk(window, TableAfter(window, es), a).0
  }

  function AcceptedNext(hist: seq<int>, t: int, ok: bool): seq<int> {
    if ok then hist + [t] else hist
  }

  /** The ideal: every submission ever accepted for a key, with nothing pruned or collected. */
  function Accepted(window: nat, es: seq<Attempt>, k: Key): seq<int> {
    if es == [] then [] else
    var before, a := es[..|es| - 1], es[|es| - 1];
    AcceptedNext(Accepted(window, before, k), a.now, a.key == k && Accepts(window, before, a))
  }

  /** No reading is more than `delay` older than one entered before it, nor is `now`, read next. */
  ghost predicate ReadBy(es: seq<Attempt>, now: int, delay: nat) {
    && (forall i :: 0 <= i < |es| ==> es[i].now <= now + delay)
    && (forall i, j :: 0 <= i < j < |es| ==> es[i].now <= es[j].now + delay)
  }

  lemma ReadBefore(es: seq<Attempt>, now: int, delay: nat)
    requires es != [] && ReadBy(es, now, delay)
    ensures ReadBy(es[..|es| - 1], now, delay) && ReadBy(es[..|es| - 1], es[|es| - 1].now, delay)
  {
  }

  /**
   A key's list against its history. The collection may drop a hit with a newest one up to `delay` older,
   which costs a second delay.
   */
  ghost predicate Sound(window: nat, hist: seq<int>, list: seq<int>, now: int, delay: nat) {
    Linked(hist, list, now + 2 * delay - window, delay) && AllAtMost(hist, now + delay)
  }

  /** A key's list after one more submission is tried at `t`. */
  function NextList(window: nat, list: seq<int>, t: int): seq<int> {
    var recent := Dropped(list, t - window);
    if |recent| < LIMIT then recent + [t] else recent
  }

  predicate HasRoom(window: nat, list: seq<int>, t: int) {
    |Dropped(list, t - window)| < LIMIT
  }

  lemma DropKeepsSound(window: nat, hist: seq<int>, list: seq<int>, t: int, now: int, delay: nat)
    requires Sound(window, hist, list, now, delay) && t <= now + delay
    ensures Sound(window, hist, Dropped(list, t - window), now, delay)
  {
    DropKeepsLink(hist, list, t - window, now + 2 * delay - window, delay);
  }

  lemma PushKeepsSound(window: nat, hist: seq<int>, list: seq<int>, t: int, now: int, delay: nat)
    requires Sound(window, hist, list, now, delay) && AllAtMost(hist, t + delay) && t <= now + delay
    ensures Sound(window, hist + [t], list + [t], now, delay)
  {
    PushOne(hist, list, t, now + 2 * delay - window, delay);
  }

  lemma TryKeepsSound(window: nat, hist: seq<int>, list: seq<int>, t: int, now: int, delay: nat)
    requires Sound(window, hist, list, now, delay) && AllAtMost(hist, t + delay) && t <= now + delay
    ensures Sound(window, AcceptedNext(hist, t, HasRoom(window, list, t)), NextList(window, list, t), now, delay)
  {
    DropKeepsSound(window, hist, list, t, now, delay);
    if HasRoom(window, list, t) {
      PushKeepsSound(window, hist, Dropped(list, t - window), t, now, delay);
    }
  }

  /** Collecting an entry loses nothing that could still count. */
  lemma CollectionKeepsSound(window: nat, hist: seq<int>, list: seq<int>, t: int, now: int, delay: nat)
    requires Sound(window, hist, list, now, delay) && t <= now + delay
    requires list != [] && list[|list| - 1] < t - window
    ensures Sound(window, hist, [], now, delay)
  {
    ForgetKeepsLink(hist, list, now + 2 * delay - window, delay);
  }

  /** The table before any collection. */
  function Entered(window: nat, t: Table, a: Attempt): Table {
    t[a.key := NextList(window, Hits(t, a.key), a.now)]
  }

  lemma RateOkTable(window: nat, t: Table, a: Attempt)
    ensures RateOk(window, t, a).0 <==> HasRoom(window, Hits(t, a.key), a.now)
    ensures var t' := RateOk(window, t, a).1;
            t' == Entered(window, t, a) || t' == Collected(Entered(window, t, a), a.now - window)
  {
  }

  /** What one submission does to the list of any key: the try, if it is its own, and perhaps the collection. */
  lemma HitsAfter(window: nat, t: Table, a: Attempt, k: Key)
    ensures var entered := if a.key == k then NextList(window, Hits(t, k), a.now) else Hits(t, k);
            var after := Hits(RateOk(window, t, a).1, k);
            after == entered || (after == [] && entered != [] && entered[|entered| - 1] < a.now - window)
  {
    RateOkTable(window, t, a);
  }

  lemma OwnStep(window: nat, t: Table, a: Attempt, hist: seq<int>, now: int, delay: nat)
    requires Sound(window, hist, Hits(t, a.key), now, delay) && AllAtMost(hist, a.now + delay) && a.now <= now + delay
    ensures var (ok, t') := RateOk(window, t, a);
            Sound(window, AcceptedNext(hist, a.now, ok), Hits(t', a.key), now, delay)
  {
    var list, hist' := Hits(t, a.key), AcceptedNext(hist, a.now, RateOk(window, t, a).0);
    RateOkTable(window, t, a);
    HitsAfter(window, t, a, a.key);
    TryKeepsSound(window, hist, list, a.now, now, delay);
    if Hits(RateOk(window, t, a).1, a.key) != NextList(window, list, a.now) {
      CollectionKeepsSound(window, hist', NextList(window, list, a.now), a.now, now, delay);
    }
  }

  lemma OtherStep(window: nat, t: Table, a: Attempt, hist: seq<int>, k: Key, now: int, delay: nat)
    requires Sound(window, hist, Hits(t, k), now, delay) && a.now <= now + delay && a.key != k
    ensures Sound(window, hist, Hits(RateOk(window, t, a).1, k), now, delay)
  {
    HitsAfter(window, t, a, k);
    if Hits(RateOk(window, t, a).1, k) != Hits(t, k) {
      CollectionKeepsSound(window, hist, Hits(t, k), a.now, now, delay);
    }
  }

  lemma StepKeepsSound(window: nat, t: Table, a: Attempt, hist: seq<int>, k: Key, now: int, delay: nat)
    requires Sound(window, hist, Hits(t, k), now, delay) && AllAtMost(hist, a.now + delay) && a.now <= now + delay
    ensures Sound(window, AcceptedNext(hist, a.now, a.key == k && RateOk(window, t, a).0),
                  Hits(RateOk(window, t, a).1, k), now, delay)
  {
    if a.key == k {
      OwnStep(window, t, a, hist, now, delay);
    } else {
      OtherStep(window, t, a, hist, k, now, delay);
    }
  }

  lemma {:induction false} TableIsSound(window: nat, es: seq<Attempt>, k: Key, now: int, delay: nat)
    requires ReadBy(es, now, delay)
    ensures Sound(window, Accepted(window, es, k), Hits(TableAfter(window, es), k), now, delay)
  {
    if es != [] {
      var before, a := es[..|es| - 1], es[|es| - 1];
      ReadBefore(es, now, delay);
      TableIsSound(window, before, k, now, delay);
      TableIsSound(window, before, k, a.now, delay);
      StepKeepsSound(window, TableAfter(window, before), a, Accepted(window, before, k), k, now, delay);
    }
  }

  /** The answer is right for the history, give or take the delay. */
  predicate Decided(window: nat, hist: seq<int>, now: int, delay: nat, ok: bool) {
    && (ok ==> CountWithin(hist, now - window + 2 * delay, now + delay) < LIMIT)
    && (!ok ==> CountWithin(hist, now - window - delay, now + delay) >= LIMIT)
    && (delay == 0 ==> (ok <==> CountWithin(hist, now - window, now) < LIMIT))
  }

  /** What a key's list counts lies between two counts of its history. */
  ghost predicate Brackets(window: nat, hist: seq<int>, list: seq<int>, now: int, delay: nat) {
    |Fresh(hist, now - window + 2 * delay)| <= |Dropped(list, now - window)| <= |Fresh(hist, now - window - delay)|
  }

  lemma DecidesNearly(window: nat, hist: seq<int>, list: seq<int>, now: int, delay: nat)
    requires Sound(window, hist, list, now, delay)
    ensures Brackets(window, hist, list, now, delay)
  {
    var c := now - window;
    AlignedFresh(hist, list, c + 2 * delay, c + 2 * delay);
    DroppedKeepsFresh(list, c);
    FreshFromEarlier(list, c, c + 2 * delay);
    DroppedIsNearlyFresh(list, c, delay);
    DropKeepsSub(list, hist, c);
    SubFresh(Dropped(list, c), hist, c - delay);
  }

  lemma TableIsBracketed(window: nat, es: seq<Attempt>, k: Key, now: int, delay: nat)
    requires ReadBy(es, now, delay)
    ensures Brackets(window, Accepted(window, es, k), Hits(TableAfter(window, es), k), now, delay)
    ensures AllAtMost(Accepted(window, es, k), now + delay)
  {
    TableIsSound(window, es, k, now, delay);
    DecidesNearly(window, Accepted(window, es, k), Hits(TableAfter(window, es), k), now, delay);
  }

  lemma AcceptsIfRoom(window: nat, es: seq<Attempt>, a: Attempt)
    ensures Accepts(window, es, a) <==> HasRoom(window, Hits(TableAfter(window, es), a.key), a.now)
  {
  }

  lemma BracketsDecide(window: nat, hist: seq<int>, list: seq<int>, now: int, delay: nat)
    requires Brackets(window, hist, list, now, delay) && AllAtMost(hist, now + delay)
    ensures Decided(window, hist, now, delay, HasRoom(window, list, now))
    ensures HasRoom(window, list, now) ==> |Fresh(hist, now - window + 2 * delay)| < LIMIT
  {
    FreshIsCount(hist, now - window + 2 * delay, now + delay);
    FreshIsCount(hist, now - window - delay, now + delay);
  }

  lemma AcceptanceIsDecided(window: nat, es: seq<Attempt>, a: Attempt, delay: nat)
    requires ReadBy(es, a.now, delay)
    ensures Decided(window, Accepted(window, es, a.key), a.now, delay, Accepts(window, es, a))
  {
    TableIsBracketed(window, es, a.key, a.now, delay);
    AcceptsIfRoom(window, es, a);
    BracketsDecide(window, Accepted(window, es, a.key), Hits(TableAfter(window, es), a.key), a.now, delay);
  }

  /**
   Over every run of submissions, to any mix of forms, whose readings are at most `delay` old: an accepted one
   finds fewer than ten accepted before it for its own key in a window shortened by twice the delay, a refused one
   finds ten in a window lengthened by it. With readings in order, one is turned away exactly when ten
   earlier ones for its key were accepted in the window; the pruning and the collection never change an answer.
   */
  lemma CollectionNeverChangesADecision(window: nat, es: seq<Attempt>, a: Attempt, delay: nat)
    requires ReadBy(es, a.now, delay)
    ensures var hist := Accepted(window, es, a.key);
            && (Accepts(window, es, a) ==> CountWithin(hist, a.now - window + 2 * delay, a.now + delay) < 10)
            && (!Accepts(window, es, a) ==> CountWithin(hist, a.now - window - delay, a.now + delay) >= 10)
            && (delay == 0 ==> (Accepts(window, es, a) <==> CountWithin(hist, a.now - window, a.now) < 10))
  {
    AcceptanceIsDecided(window, es, a, delay);
  }

  lemma NextIsPaced(hist: seq<int>, t: int, ok: bool, span: int)
    requires Paced(hist, span, LIMIT) && span >= 0 && (ok ==> |Fresh(hist, t - span)| < LIMIT)
    ensures Paced(AcceptedNext(hist, t, ok), span, LIMIT)
  {
    if ok {
      assert Repeat(t, 1) == [t];
      PushKeepsPace(hist, t, 1, span, LIMIT);
    }
  }

  lemma AcceptanceFits(window: nat, es: seq<Attempt>, a: Attempt, delay: nat)
    requires ReadBy(es, a.now, delay) && Accepts(window, es, a)
    ensures |Fresh(Accepted(window, es, a.key), a.now - window + 2 * delay)| < LIMIT
  {
    TableIsBracketed(window, es, a.key, a.now, delay);
    AcceptsIfRoom(window, es, a);
    BracketsDecide(window, Accepted(window, es, a.key), Hits(TableAfter(window, es), a.key), a.now, delay);
  }

  lemma {:induction false} AcceptedIsPaced(window: nat, es: seq<Attempt>, k: Key, now: int, delay: nat)
    requires ReadBy(es, now, delay) && 2 * delay <= window
    ensures Paced(Accepted(window, es, k), window - 2 * delay, LIMIT)
  {
    if es != [] {
      var before, a := es[..|es| - 1], es[|es| - 1];
      ReadBefore(es, now, delay);
      AcceptedIsPaced(window, before, k, now, delay);
      var ok := a.key == k && Accepts(window, before, a);
      if ok {
        AcceptanceFits(window, before, a, delay);
      }
      NextIsPaced(Accepted(window, before, k), a.now, ok, window - 2 * delay);
    }
  }

  /** No closed window shorter by twice the delay ever holds more than ten accepted submissions of one key. */
  lemma NoWindowOverLimit(window: nat, es: seq<Attempt>, now: int, k: Key, delay: nat, lo: int)
    requires ReadBy(es, now, delay) && 2 * delay <= window
    ensures CountWithin(Accepted(window, es, k), lo, lo + window - 2 * delay) <= LIMIT
  {
    AcceptedIsPaced(window, es, k, now, delay);
    PacedBoundsEveryWindow(Accepted(window, es, k), window - 2 * delay, LIMIT, lo);
  }

  /** The module's table. */
  class Limiter {
    const window: nat
    var rate: Table

    constructor (window: nat)
      ensures this.window == window && rate == TableAfter(window, [])
    {
      this.window := window;
      rate := map[];
    }

    method Check(key: Key, now: int) returns (ok: bool)
      modifies this
      ensures (ok, rate) == RateOk(window, old(rate), Attempt(key, now))
    {
      var dq := DropExpired(Hits(rate, key), now - window);
      if |dq| >= LIMIT {
        rate := rate[key := dq];
        return false;
      }
      rate := rate[key := dq + [now]];
      if |rate| > MAX_KEYS {
        rate := Collected(rate, now - window);
      }
      return true;
    }
  }
}
