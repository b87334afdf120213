/**
 What a refund of `portal/api.py` really gives back. It pops the newest slots of the log, which may be
 another operation's. These results compare the operations an hour was spent on (`kept`) with the log (`net`).
 */
module Refunds {
  import opened SlidingWindows
  import opened RateLimits

  // ----- counting in a multiset -----

  lemma HasMember(m: multiset<int>)
    requires m != multiset{}
    ensures exists x :: x in m
  {
    assert (forall x :: x !in m) ==> m == multiset{};
  }

  lemma RemovedInAnyOrder(m: multiset<int>, x: int, y: int)
    requires x != y
    ensures m - multiset{x} - multiset{y} == m - multiset{y} - multiset{x}
  {
  }

  /** Members within the closed interval. */
  ghost function Between(m: multiset<int>, lo: int, hi: int): nat
    decreases |m|
  {
    if m == multiset{} then 0 else
    HasMember(m);
    var x :| x in m;
    (if lo <= x <= hi then 1 else 0) + Between(m - multiset{x}, lo, hi)
  }

  lemma {:induction false} BetweenWithout(m: multiset<int>, x: int, lo: int, hi: int)
    requires x in m
    ensures Between(m, lo, hi) == (if lo <= x <= hi then 1 else 0) + Between(m - multiset{x}, lo, hi)
    decreases |m|
  {
    var y :| y in m && Between(m, lo, hi) == (if lo <= y <= hi then 1 else 0) + Between(m - multiset{y}, lo, hi);
    if y != x {
      BetweenWithout(m - multiset{y}, x, lo, hi);
      BetweenWithout(m - multiset{x}, y, lo, hi);
      RemovedInAnyOrder(m, x, y);
    }
  }

  lemma {:induction false} BetweenOfSeq(s: seq<int>, lo: int, hi: int)
    ensures Between(multiset(s), lo, hi) == CountWithin(s, lo, hi)
  {
    if s != [] {
      var before, x := s[..|s| - 1], s[|s| - 1];
      assert s == before + [x];
      BetweenWithout(multiset(s), x, lo, hi);
      assert multiset(s) - multiset{x} == multiset(before);
      BetweenOfSeq(before, lo, hi);
    }
  }

  lemma {:induction false} BetweenOfSum(a: multiset<int>, b: multiset<int>, lo: int, hi: int)
    ensures Between(a + b, lo, hi) == Between(a, lo, hi) + Between(b, lo, hi)
    decreases |a|
  {
    if a == multiset{} {
      assert a + b == b;
    } else {
      HasMember(a);
      var x :| x in a;
      BetweenWithout(a, x, lo, hi);
      BetweenWithout(a + b, x, lo, hi);
      assert a + b - multiset{x} == a - multiset{x} + b;
      BetweenOfSum(a - multiset{x}, b, lo, hi);
    }
  }

  lemma BetweenOfLess(a: multiset<int>, b: multiset<int>, lo: int, hi: int)
    requires a <= b
    ensures Between(b - a, lo, hi) == Between(b, lo, hi) - Between(a, lo, hi)
  {
    assert b == a + (b - a);
    BetweenOfSum(a, b - a, lo, hi);
  }

  lemma BetweenOfCopies(t: int, n: nat, lo: int, hi: int)
    ensures Between(multiset(Repeat(t, n)), lo, hi) == if lo <= t <= hi then n else 0
  {
    BetweenOfSeq(Repeat(t, n), lo, hi);
    CountOfCopies(t, n, lo, hi);
  }

  /** Beyond the largest member the interval's end does not matter. */
  lemma {:induction false} BetweenCapped(m: multiset<int>, lo: int, now: int, hi: int)
    requires (forall x :: x in m ==> x <= now) && now <= hi
    ensures Between(m, lo, hi) == Between(m, lo, now)
    ensures lo > now ==> Between(m, lo, hi) == 0
    decreases |m|
  {
    if m != multiset{} {
      HasMember(m);
      var x :| x in m;
      BetweenWithout(m, x, lo, hi);
      BetweenWithout(m, x, lo, now);
      BetweenCapped(m - multiset{x}, lo, now, hi);
    }
  }

  // ----- whose slots a refund takes -----

  /** A refund whose slots are the newest in the log. */
  ghost predicate GivesBackItsOwn(net: seq<int>, n: nat, at: int) {
    n <= |net| && forall i :: |net| - n <= i < |net| ==> net[i] == at
  }

  lemma PopIsOwn(net: seq<int>, n: nat, at: int)
    requires GivesBackItsOwn(net, n, at)
    ensures multiset(Popped(net, n)) == multiset(net) - multiset(Repeat(at, n))
    ensures net == Popped(net, n) + Repeat(at, n)
  {
    assert net == net[..|net| - n] + net[|net| - n..];
    assert net[|net| - n..] == Repeat(at, n);
  }

  lemma {:induction false} CopiesInMultiset(t: int, n: nat)
    ensures forall x :: multiset(Repeat(t, n))[x] == if x == t then n else 0
    decreases n
  {
    if n > 0 {
      CopiesInMultiset(t, n - 1);
      assert Repeat(t, n) == Repeat(t, n - 1) + [t];
    }
  }

  lemma PopTakesAnother(net: seq<int>, n: nat, at: int, i: nat)
    requires n <= |net| && |net| - n <= i < |net| && net[i] != at
    ensures multiset(Popped(net, n))[net[i]] < (multiset(net) - multiset(Repeat(at, n)))[net[i]]
  {
    var top := net[|net| - n..];
    assert net == Popped(net, n) + top;
    assert top[i - (|net| - n)] == net[i];
    CopiesInMultiset(at, n);
    assert multiset(net)[net[i]] == multiset(Popped(net, n))[net[i]] + multiset(top)[net[i]];
  }

  /**
   A refund pops the newest slots, not the caller's. Starting from a log that lists the kept operations, it
   still lists them afterwards if and only if the slots popped carry the caller's own time.
   */
  lemma RefundIsFaithfulIff(net: seq<int>, n: nat, at: int)
    requires n <= |net| && multiset(Repeat(at, n)) <= multiset(net)
    ensures multiset(Popped(net, n)) == multiset(net) - multiset(Repeat(at, n)) <==> GivesBackItsOwn(net, n, at)
  {
    if GivesBackItsOwn(net, n, at) {
      PopIsOwn(net, n, at);
    } else {
      var i :| |net| - n <= i < |net| && net[i] != at;
      PopTakesAnother(net, n, at, i);
    }
  }

  // ----- own refunds keep the promise -----

  /** A refund of an operation still kept, whose slots are the newest. */
  ghost predicate Own(s: Log, e: Event) {
    e.Refund? ==> GivesBackItsOwn(s.net, e.n, e.at) && multiset(Repeat(e.at, e.n)) <= s.kept
  }

  ghost predicate OwnRefunds(lim: Limits, s: Log, es: seq<Event>) {
    forall i :: 0 <= i < |es| ==> Own(RunFrom(lim, s, es[..i]), es[i])
  }

  lemma OwnBefore(lim: Limits, s: Log, es: seq<Event>)
    requires es != [] && OwnRefunds(lim, s, es)
    ensures OwnRefunds(lim, s, es[..|es| - 1]) && Own(RunFrom(lim, s, es[..|es| - 1]), es[|es| - 1])
  {
    var before := es[..|es| - 1];
    forall i | 0 <= i < |before| ensures Own(RunFrom(lim, s, before[..i]), before[i]) {
      assert before[..i] == es[..i] && before[i] == es[i];
    }
  }

  lemma {:induction false} KeptIsNet(lim: Limits, es: seq<Event>)
    requires OwnRefunds(lim, Empty(), es)
    ensures Run(lim, es).kept == multiset(Run(lim, es).net)
  {
    if es != [] {
      var before, e := es[..|es| - 1], es[|es| - 1];
      OwnBefore(lim, Empty(), es);
      KeptIsNet(lim, before);
      if e.Refund? {
        PopIsOwn(Run(lim, before).net, e.n, e.at);
      }
    }
  }

  lemma NetBound(lim: Limits, es: seq<Event>, delay: nat, lo: int, s: Log)
    requires Clock(es, delay) && delay <= lim.window && s == Run(lim, es) && s.kept == multiset(s.net)
    ensures Between(s.kept, lo, lo + lim.window - delay) <= lim.limit
  {
    NoWindowOverLimit(lim, es, delay, lo);
    BetweenOfSeq(s.net, lo, lo + lim.window - delay);
  }

  /**
   With own refunds only, and readings at most `delay` old, the operations kept in any shortened window are
   within the limit.
   */
  lemma OwnRefundsBoundKept(lim: Limits, es: seq<Event>, delay: nat, lo: int)
    requires Clock(es, delay) && delay <= lim.window && OwnRefunds(lim, Empty(), es)
    ensures Between(Run(lim, es).kept, lo, lo + lim.window - delay) <= lim.limit
  {
    KeptIsNet(lim, es);
    NetBound(lim, es, delay, lo, Run(lim, es));
  }

  // ----- the exact condition, on a state -----

  /** Operations kept in the window that begins at `lo`. */
  ghost function KeptIn(lim: Limits, kept: multiset<int>, lo: int): nat {
    Between(kept, lo, lo + lim.window)
  }

  ghost predicate KeptFits(lim: Limits, kept: multiset<int>) {
    forall lo :: KeptIn(lim, kept, lo) <= lim.limit
  }

  /** A log after a run whose readings were in order, none later than `now`. */
  ghost predicate Ordered(lim: Limits, s: Log, now: int) {
    Sound(lim, s, now, 0) && Paced(s.net, lim.window, lim.limit) && forall x :: x in s.kept ==> x <= now
  }

  /** From every cutoff still inside the window, the log shows at least the operations kept. */
  ghost predicate Covered(lim: Limits, s: Log, now: int) {
    forall c :: now - lim.window <= c <= now ==> Between(s.kept, c, now) <= CountWithin(s.net, c, now)
  }

  /** Later events, in clock order. */
  ghost predicate Continues(es: seq<Event>, now: int) {
    Clock(es, 0) && forall i :: 0 <= i < |es| && es[i].Check? ==> now <= es[i].now
  }

  function LastReading(now: int, es: seq<Event>): int {
    if es == [] then now else if es[|es| - 1].Check? then es[|es| - 1].now else LastReading(now, es[..|es| - 1])
  }

  lemma {:induction false} CountCapped(s: seq<int>, lo: int, now: int, hi: int)
    requires AllAtMost(s, now) && now <= hi
    ensures CountWithin(s, lo, hi) == CountWithin(s, lo, now)
  {
    if s != [] {
      CountCapped(s[..|s| - 1], lo, now, hi);
    }
  }

  lemma OrderedLater(lim: Limits, s: Log, now: int, t: int)
    requires Ordered(lim, s, now) && now <= t
    ensures Ordered(lim, s, t)
  {
    AlignedLater(s.net, s.dq, now - lim.window, t - lim.window);
  }

  lemma CoveredLater(lim: Limits, s: Log, now: int, t: int)
    requires Ordered(lim, s, now) && Covered(lim, s, now) && now <= t
    ensures Covered(lim, s, t)
  {
    forall c | t - lim.window <= c <= t
      ensures Between(s.kept, c, t) <= CountWithin(s.net, c, t)
    {
      BetweenCapped(s.kept, c, now, t);
      CountCapped(s.net, c, now, t);
    }
  }

  lemma CheckKeepsOrdered(lim: Limits, s: Log, t: int, n: nat)
    requires Ordered(lim, s, t)
    ensures Ordered(lim, Step(lim, s, Check(t, n)), t)
  {
    CheckKeepsSound(lim, s, t, n, t, 0);
    DecidesNearly(lim, s, t, 0);
    PaceStep(lim, s, Check(t, n), 0);
  }

  lemma GrantAdds(lim: Limits, s: Log, t: int, n: nat, lo: int, hi: int)
    requires Reserve(s.dq, lim, t, n).0
    ensures var s' := Step(lim, s, Check(t, n));
            && Between(s'.kept, lo, hi) == Between(s.kept, lo, hi) + (if lo <= t <= hi then n else 0)
            && CountWithin(s'.net, lo, hi) == CountWithin(s.net, lo, hi) + (if lo <= t <= hi then n else 0)
  {
    BetweenOfSum(s.kept, multiset(Repeat(t, n)), lo, hi);
    BetweenOfCopies(t, n, lo, hi);
    CountOfConcat(s.net, Repeat(t, n), lo, hi);
    CountOfCopies(t, n, lo, hi);
  }

  lemma GrantCovers(lim: Limits, s: Log, t: int, n: nat)
    requires Covered(lim, s, t) && Reserve(s.dq, lim, t, n).0
    ensures Covered(lim, Step(lim, s, Check(t, n)), t)
  {
    var s' := Step(lim, s, Check(t, n));
    forall c | t - lim.window <= c <= t
      ensures Between(s'.kept, c, t) <= CountWithin(s'.net, c, t)
    {
      GrantAdds(lim, s, t, n, c, t);
    }
  }

  /** Net slots in the window that begins at `lo`. */
  function NetIn(lim: Limits, net: seq<int>, lo: int): nat {
    CountWithin(net, lo, lo + lim.window)
  }

  lemma WindowsFit(lim: Limits, net: seq<int>)
    requires Paced(net, lim.window, lim.limit)
    ensures forall lo :: NetIn(lim, net, lo) <= lim.limit
  {
    forall lo ensures NetIn(lim, net, lo) <= lim.limit {
      PacedBoundsEveryWindow(net, lim.window, lim.limit, lo);
    }
  }

  lemma CoveredWindow(lim: Limits, s: Log, now: int, lo: int)
    requires AllAtMost(s.net, now) && (forall x :: x in s.kept ==> x <= now)
    requires Covered(lim, s, now) && lo <= now <= lo + lim.window
    ensures Between(s.kept, lo, lo + lim.window) <= CountWithin(s.net, lo, lo + lim.window)
  {
    BetweenCapped(s.kept, lo, now, lo + lim.window);
    CountCapped(s.net, lo, now, lo + lim.window);
    assert Between(s.kept, lo, now) <= CountWithin(s.net, lo, now);
  }

  lemma GrantFits(lim: Limits, s: Log, t: int, n: nat)
    requires AllAtMost(s.net, t) && (forall x :: x in s.kept ==> x <= t)
    requires Covered(lim, s, t) && KeptFits(lim, s.kept) && Reserve(s.dq, lim, t, n).0
    requires forall lo :: NetIn(lim, Step(lim, s, Check(t, n)).net, lo) <= lim.limit
    ensures KeptFits(lim, Step(lim, s, Check(t, n)).kept)
  {
    var s' := Step(lim, s, Check(t, n));
    forall lo ensures KeptIn(lim, s'.kept, lo) <= lim.limit {
      assert KeptIn(lim, s.kept, lo) <= lim.limit && NetIn(lim, s'.net, lo) <= lim.limit;
      GrantAdds(lim, s, t, n, lo, lo + lim.window);
      if lo <= t <= lo + lim.window {
        CoveredWindow(lim, s, t, lo);
      }
    }
  }

  /** A granted check adds as much to the log as to the kept operations, and fits. */
  lemma CheckKeepsCover(lim: Limits, s: Log, t: int, n: nat)
    requires Ordered(lim, s, t) && Covered(lim, s, t) && KeptFits(lim, s.kept)
    ensures var s' := Step(lim, s, Check(t, n)); Covered(lim, s', t) && KeptFits(lim, s'.kept)
  {
    if Reserve(s.dq, lim, t, n).0 {
      CheckKeepsOrdered(lim, s, t, n);
      WindowsFit(lim, Step(lim, s, Check(t, n)).net);
      GrantCovers(lim, s, t, n);
      GrantFits(lim, s, t, n);
    }
  }

  lemma OwnTakes(lim: Limits, s: Log, n: nat, at: int, lo: int, hi: int)
    requires Own(s, Refund(n, at))
    ensures var s' := Step(lim, s, Refund(n, at));
            var taken := if lo <= at <= hi then n else 0;
            && Between(s'.kept, lo, hi) == Between(s.kept, lo, hi) - taken
            && CountWithin(s'.net, lo, hi) == CountWithin(s.net, lo, hi) - taken
  {
    PopIsOwn(s.net, n, at);
    BetweenOfLess(multiset(Repeat(at, n)), s.kept, lo, hi);
    BetweenOfCopies(at, n, lo, hi);
    CountOfConcat(Popped(s.net, n), Repeat(at, n), lo, hi);
    CountOfCopies(at, n, lo, hi);
  }

  lemma RefundTakesAlike(lim: Limits, s: Log, n: nat, at: int, now: int)
    requires Covered(lim, s, now) && Own(s, Refund(n, at))
    ensures Covered(lim, Step(lim, s, Refund(n, at)), now)
  {
    var s' := Step(lim, s, Refund(n, at));
    forall c | now - lim.window <= c <= now
      ensures Between(s'.kept, c, now) <= CountWithin(s'.net, c, now)
    {
      OwnTakes(lim, s, n, at, c, now);
    }
  }

  lemma FewerKept(lim: Limits, kept: multiset<int>, taken: multiset<int>, lo: int)
    requires taken <= kept
    ensures KeptIn(lim, kept - taken, lo) <= KeptIn(lim, kept, lo)
  {
    BetweenOfLess(taken, kept, lo, lo + lim.window);
  }

  /** Any refund of a kept operation only takes from what is kept. */
  lemma RefundFits(lim: Limits, kept: multiset<int>, n: nat, at: int)
    requires KeptFits(lim, kept) && multiset(Repeat(at, n)) <= kept
    ensures KeptFits(lim, kept - multiset(Repeat(at, n)))
  {
    forall lo ensures KeptIn(lim, kept - multiset(Repeat(at, n)), lo) <= lim.limit {
      FewerKept(lim, kept, multiset(Repeat(at, n)), lo);
    }
  }

  /** An own refund takes as much off the log as off the kept operations. */
  lemma RefundKeepsCover(lim: Limits, s: Log, n: nat, at: int, now: int)
    requires Ordered(lim, s, now) && Covered(lim, s, now) && KeptFits(lim, s.kept) && Own(s, Refund(n, at))
    ensures var s' := Step(lim, s, Refund(n, at));
            Ordered(lim, s', now) && Covered(lim, s', now) && KeptFits(lim, s'.kept)
  {
    RefundKeepsSound(lim, s, n, at, now, 0);
    PaceStep(lim, s, Refund(n, at), 0);
    RefundTakesAlike(lim, s, n, at, now);
    RefundFits(lim, s.kept, n, at);
  }

  ghost predicate Promises(lim: Limits, s: Log, now: int) {
    Ordered(lim, s, now) && Covered(lim, s, now) && KeptFits(lim, s.kept)
  }

  lemma PromiseStep(lim: Limits, s: Log, now: int, e: Event)
    requires Promises(lim, s, now) && Own(s, e) && (e.Check? ==> now <= e.now)
    ensures Promises(lim, Step(lim, s, e), if e.Check? then e.now else now)
  {
    match e
    case Check(t, n) =>
      CoveredLater(lim, s, now, t);
      OrderedLater(lim, s, now, t);
      CheckKeepsOrdered(lim, s, t, n);
      CheckKeepsCover(lim, s, t, n);
    case Refund(n, at) => RefundKeepsCover(lim, s, n, at, now);
  }

  lemma {:induction false} LastIsNoLater(es: seq<Event>, now: int, t: int)
    requires now <= t && forall i :: 0 <= i < |es| && es[i].Check? ==> es[i].now <= t
    ensures LastReading(now, es) <= t
  {
    if es != [] {
      LastIsNoLater(es[..|es| - 1], now, t);
    }
  }

  lemma ContinuesBefore(es: seq<Event>, now: int)
    requires es != [] && Continues(es, now)
    ensures Continues(es[..|es| - 1], now)
    ensures es[|es| - 1].Check? ==> LastReading(now, es[..|es| - 1]) <= es[|es| - 1].now
  {
    if es[|es| - 1].Check? {
      LastIsNoLater(es[..|es| - 1], now, es[|es| - 1].now);
    }
  }

  lemma {:induction false} PromiseLasts(lim: Limits, s: Log, now: int, es: seq<Event>)
    requires Promises(lim, s, now) && Continues(es, now) && OwnRefunds(lim, s, es)
    ensures Promises(lim, RunFrom(lim, s, es), LastReading(now, es))
  {
    if es != [] {
      var before, e := es[..|es| - 1], es[|es| - 1];
      ContinuesBefore(es, now);
      OwnBefore(lim, s, es);
      PromiseLasts(lim, s, now, before);
      PromiseStep(lim, RunFrom(lim, s, before), LastReading(now, before), e);
    }
  }

  /** Whatever happens next, with own refunds only, the operations kept in any window stay within the limit. */
  ghost predicate StaysWithinLimit(lim: Limits, s: Log, now: int) {
    forall es :: Continues(es, now) && OwnRefunds(lim, s, es) ==> KeptFits(lim, RunFrom(lim, s, es).kept)
  }

  lemma FullWindow(lim: Limits, s: Log, now: int, c: int, n: nat)
    requires (forall x :: x in s.kept ==> x <= now) && now - lim.window <= c <= now
    requires Reserve(s.dq, lim, c + lim.window, n).0 && KeptFits(lim, Step(lim, s, Check(c + lim.window, n)).kept)
    ensures Between(s.kept, c, now) + n <= lim.limit
  {
    var t := c + lim.window;
    assert KeptIn(lim, Step(lim, s, Check(t, n)).kept, c) <= lim.limit;
    GrantAdds(lim, s, t, n, c, t);
    BetweenCapped(s.kept, c, now, t);
  }

  lemma RoomInWindow(lim: Limits, s: Log, now: int, c: int)
    requires Ordered(lim, s, now) && now - lim.window <= c <= now
    ensures var n := lim.limit - CountWithin(s.net, c, now);
            n >= 0 && Reserve(s.dq, lim, c + lim.window, n).0
  {
    var t := c + lim.window;
    OrderedLater(lim, s, now, t);
    DecidesNearly(lim, s, t, 0);
    FreshIsCount(s.net, c, now);
    CountCapped(s.net, c, now, t);
    PacedBoundsEveryWindow(s.net, lim.window, lim.limit, c);
  }

  lemma OneCheck(lim: Limits, s: Log, now: int, t: int, n: nat)
    requires StaysWithinLimit(lim, s, now) && now <= t
    ensures KeptFits(lim, Step(lim, s, Check(t, n)).kept)
  {
    var es := [Check(t, n)];
    assert es[..0] == [] && RunFrom(lim, s, es[..0]) == s;
    assert RunFrom(lim, s, es) == Step(lim, s, Check(t, n));
    assert Continues(es, now) && OwnRefunds(lim, s, es);
  }

  /** One check at the end of the window that begins at `c` fills it up, as far as the log can tell. */
  lemma FillWindow(lim: Limits, s: Log, now: int, c: int)
    requires Ordered(lim, s, now) && now - lim.window <= c <= now
    requires StaysWithinLimit(lim, s, now)
    ensures Between(s.kept, c, now) <= CountWithin(s.net, c, now)
  {
    var t := c + lim.window;
    RoomInWindow(lim, s, now, c);
    var n := lim.limit - CountWithin(s.net, c, now);
    OneCheck(lim, s, now, t, n);
    FullWindow(lim, s, now, c, n);
  }

  /**
   The promise of the limit, as a condition on the state: every continuation with own refunds keeps the
   operations of every closed window within the limit, if and only if those so far are and, for every cutoff
   still inside the window, there are no more of them than the log shows.
   */
  lemma StaysWithinLimitIff(lim: Limits, s: Log, now: int)
    requires Ordered(lim, s, now)
    ensures StaysWithinLimit(lim, s, now) <==> KeptFits(lim, s.kept) && Covered(lim, s, now)
  {
    if KeptFits(lim, s.kept) && Covered(lim, s, now) {
      forall es | Continues(es, now) && OwnRefunds(lim, s, es)
        ensures KeptFits(lim, RunFrom(lim, s, es).kept)
      {
        PromiseLasts(lim, s, now, es);
      }
    }
    if StaysWithinLimit(lim, s, now) {
      assert Continues([], now) && OwnRefunds(lim, s, []) && RunFrom(lim, s, []) == s;
      forall c | now - lim.window <= c <= now
        ensures Between(s.kept, c, now) <= CountWithin(s.net, c, now)
      {
        FillWindow(lim, s, now, c);
      }
    }
  }

  // ----- one refund of someone else's slot -----

  lemma NetFits(lim: Limits, net: seq<int>)
    requires Paced(net, lim.window, lim.limit)
    ensures KeptFits(lim, multiset(net))
  {
    WindowsFit(lim, net);
    forall lo ensures KeptIn(lim, multiset(net), lo) <= lim.limit {
      BetweenOfSeq(net, lo, lo + lim.window);
      assert NetIn(lim, net, lo) <= lim.limit;
    }
  }

  lemma MembersAtMost(net: seq<int>, now: int)
    requires AllAtMost(net, now)
    ensures forall x :: x in multiset(net) ==> x <= now
  {
    assert forall x :: x in multiset(net) ==> x in net;
  }

  lemma OrderedRun(lim: Limits, es: seq<Event>, now: int)
    requires ReadBy(es, now, 0) && OwnRefunds(lim, Empty(), es)
    ensures Ordered(lim, Run(lim, es), now) && Run(lim, es).kept == multiset(Run(lim, es).net)
  {
    RunIsSound(lim, es, now, 0);
    RunIsPaced(lim, es, 0);
    KeptIsNet(lim, es);
    MembersAtMost(Run(lim, es).net, now);
  }

  lemma RefundKeepsOrdered(lim: Limits, s: Log, n: nat, at: int, now: int)
    requires Ordered(lim, s, now)
    ensures Ordered(lim, Step(lim, s, Refund(n, at)), now)
  {
    RefundKeepsSound(lim, s, n, at, now, 0);
    PaceStep(lim, s, Refund(n, at), 0);
  }

  /** What is kept beyond what the log shows after a refund: the slots popped less those that should have gone. */
  lemma RefundGap(lim: Limits, s: Log, n: nat, at: int, lo: int, hi: int)
    requires s.kept == multiset(s.net) && n <= |s.net| && multiset(Repeat(at, n)) <= s.kept
    ensures var s' := Step(lim, s, Refund(n, at));
            Between(s'.kept, lo, hi) + (if lo <= at <= hi then n else 0) ==
            CountWithin(s'.net, lo, hi) + CountWithin(s.net[|s.net| - n..], lo, hi)
  {
    var top := s.net[|s.net| - n..];
    assert s.net == Popped(s.net, n) + top;
    CountOfConcat(Popped(s.net, n), top, lo, hi);
    BetweenOfSeq(s.net, lo, hi);
    BetweenOfLess(multiset(Repeat(at, n)), s.kept, lo, hi);
    BetweenOfCopies(at, n, lo, hi);
  }

  lemma {:induction false} CountIsAtMostLength(s: seq<int>, lo: int, hi: int, newest: int)
    requires AllAtMost(s, newest)
    ensures CountWithin(s, lo, hi) <= |s|
    ensures newest < lo ==> CountWithin(s, lo, hi) == 0
  {
    if s != [] {
      CountIsAtMostLength(s[..|s| - 1], lo, hi, newest);
    }
  }

  lemma NewestIsLargest(net: seq<int>, n: nat, at: int)
    requires NearlySorted(net, 0) && 0 < n <= |net| && multiset(Repeat(at, n)) <= multiset(net)
    ensures at <= net[|net| - 1] && AllAtMost(net[|net| - n..], net[|net| - 1])
  {
    CopiesInMultiset(at, n);
    assert at in multiset(net);
  }

  /** At a cutoff that no newer slot than the refunded one reaches, the refund is fair. */
  lemma FairFrom(lim: Limits, s: Log, n: nat, at: int, c: int, now: int)
    requires s.kept == multiset(s.net) && 0 < n <= |s.net| && multiset(Repeat(at, n)) <= s.kept
    requires AllAtMost(s.net[|s.net| - n..], s.net[|s.net| - 1])
    requires s.net[|s.net| - 1] < c || c <= at == s.net[|s.net| - 1] <= now
    ensures var s' := Step(lim, s, Refund(n, at)); Between(s'.kept, c, now) <= CountWithin(s'.net, c, now)
  {
    RefundGap(lim, s, n, at, c, now);
    CountIsAtMostLength(s.net[|s.net| - n..], c, now, s.net[|s.net| - 1]);
  }

  lemma HarmlessIsCovered(lim: Limits, s: Log, n: nat, at: int, now: int)
    requires s.kept == multiset(s.net) && 0 < n <= |s.net| && multiset(Repeat(at, n)) <= s.kept
    requires AllAtMost(s.net[|s.net| - n..], s.net[|s.net| - 1]) && s.net[|s.net| - 1] <= now
    requires s.net[|s.net| - 1] == at || s.net[|s.net| - 1] < now - lim.window
    ensures Covered(lim, Step(lim, s, Refund(n, at)), now)
  {
    var s' := Step(lim, s, Refund(n, at));
    forall c | now - lim.window <= c <= now
      ensures Between(s'.kept, c, now) <= CountWithin(s'.net, c, now)
    {
      FairFrom(lim, s, n, at, c, now);
    }
  }

  lemma HarmfulIsNotCovered(lim: Limits, s: Log, n: nat, at: int, now: int)
    requires s.kept == multiset(s.net) && 0 < n <= |s.net| && multiset(Repeat(at, n)) <= s.kept
    requires at < s.net[|s.net| - 1] && now - lim.window <= s.net[|s.net| - 1] <= now
    ensures !Covered(lim, Step(lim, s, Refund(n, at)), now)
  {
    var last, top := s.net[|s.net| - 1], s.net[|s.net| - n..];
    RefundGap(lim, s, n, at, last, now);
    assert top[|top| - 1] == last && CountWithin(top, last, now) >= 1;
    var s' := Step(lim, s, Refund(n, at));
    assert Between(s'.kept, last, now) > CountWithin(s'.net, last, now);
  }

  lemma FitsAfterRefund(lim: Limits, s: Log, n: nat, at: int, now: int)
    requires Ordered(lim, s, now) && s.kept == multiset(s.net) && 0 < n <= |s.net| && multiset(Repeat(at, n)) <= s.kept
    ensures KeptFits(lim, Step(lim, s, Refund(n, at)).kept)
  {
    NetFits(lim, s.net);
    RefundFits(lim, s.kept, n, at);
  }

  lemma CoveredIff(lim: Limits, s: Log, n: nat, at: int, now: int)
    requires s.kept == multiset(s.net) && 0 < n <= |s.net| && multiset(Repeat(at, n)) <= s.kept
    requires AllAtMost(s.net[|s.net| - n..], s.net[|s.net| - 1]) && at <= s.net[|s.net| - 1] <= now
    ensures Covered(lim, Step(lim, s, Refund(n, at)), now) <==>
            s.net[|s.net| - 1] == at || s.net[|s.net| - 1] < now - lim.window
  {
    if s.net[|s.net| - 1] == at || s.net[|s.net| - 1] < now - lim.window {
      HarmlessIsCovered(lim, s, n, at, now);
    } else {
      HarmfulIsNotCovered(lim, s, n, at, now);
    }
  }

  lemma CoveredIffNewest(lim: Limits, s: Log, n: nat, at: int, now: int)
    requires Ordered(lim, s, now) && s.kept == multiset(s.net) && 0 < n <= |s.net| && multiset(Repeat(at, n)) <= s.kept
    ensures Covered(lim, Step(lim, s, Refund(n, at)), now) <==>
            s.net[|s.net| - 1] == at || s.net[|s.net| - 1] < now - lim.window
  {
    NewestIsLargest(s.net, n, at);
    CoveredIff(lim, s, n, at, now);
  }

  lemma HarmlessIff(lim: Limits, s: Log, now: int, n: nat, at: int)
    requires Ordered(lim, s, now) && s.kept == multiset(s.net) && 0 < n <= |s.net| && multiset(Repeat(at, n)) <= s.kept
    ensures var newest := s.net[|s.net| - 1];
            StaysWithinLimit(lim, Step(lim, s, Refund(n, at)), now) <==> newest == at || newest < now - lim.window
  {
    RefundKeepsOrdered(lim, s, n, at, now);
    StaysWithinLimitIff(lim, Step(lim, s, Refund(n, at)), now);
    FitsAfterRefund(lim, s, n, at, now);
    CoveredIffNewest(lim, s, n, at, now);
  }

  /**
   What one refund does to a log that was faithful so far: the limit's promise survives every continuation
   with own refunds if and only if the newest slot, which it popped, was of the refunded operation's own time
   or had already left the window.
   */
  lemma RefundIsHarmlessIff(lim: Limits, es: seq<Event>, s: Log, now: int, n: nat, at: int)
    requires ReadBy(es, now, 0) && OwnRefunds(lim, Empty(), es) && s == Run(lim, es)
    requires 0 < n <= |s.net| && multiset(Repeat(at, n)) <= s.kept
    ensures var newest := s.net[|s.net| - 1];
            StaysWithinLimit(lim, Step(lim, s, Refund(n, at)), now) <==> newest == at || newest < now - lim.window
  {
    OrderedRun(lim, es, now);
    HarmlessIff(lim, s, now, n, at);
  }

  lemma ForeignClock(w: int, l: nat)
    requires w >= 1 && l >= 1
    ensures Clock([Check(0, 1), Check(1, l - 1), Refund(1, 0), Check(w + 1, 2)], 0)
  {
  }

  lemma ForeignFirst(lim: Limits, s: Log)
    requires lim.limit >= 2 && s == Empty()
    ensures var s' := Step(lim, s, Check(0, 1)); s'.dq == [0] && s'.kept == multiset{0}
  {
    assert Repeat(0, 1) == [0];
  }

  lemma ForeignFill(lim: Limits, s: Log)
    requires lim.limit >= 2 && lim.window >= 1 && s.dq == [0] && s.kept == multiset{0}
    ensures var s' := Step(lim, s, Check(1, lim.limit - 1));
            && s'.dq == [0] + Repeat(1, lim.limit - 1)
            && s'.kept == multiset{0} + multiset(Repeat(1, lim.limit - 1))
  {
  }

  lemma ForeignRefund(lim: Limits, s: Log)
    requires lim.limit >= 2 && s.dq == [0] + Repeat(1, lim.limit - 1)
    requires s.kept == multiset{0} + multiset(Repeat(1, lim.limit - 1))
    ensures var s' := Step(lim, s, Refund(1, 0));
            s'.dq == [0] + Repeat(1, lim.limit - 2) && s'.kept == multiset(Repeat(1, lim.limit - 1))
  {
    assert Repeat(0, 1) == [0];
  }

  lemma LastIsGranted(lim: Limits, s: Log)
    requires lim.limit >= 2 && lim.window >= 1 && s.dq == [0] + Repeat(1, lim.limit - 2)
    ensures Step(lim, s, Check(lim.window + 1, 2)).kept == s.kept + multiset(Repeat(lim.window + 1, 2))
  {
    DropOldest(Repeat(1, lim.limit - 2), 0, 1);
  }

  lemma ForeignLast(lim: Limits, s: Log)
    requires lim.limit >= 2 && lim.window >= 1
    requires s.dq == [0] + Repeat(1, lim.limit - 2) && s.kept == multiset(Repeat(1, lim.limit - 1))
    ensures Between(Step(lim, s, Check(lim.window + 1, 2)).kept, 1, lim.window + 1) == lim.limit + 1
  {
    LastIsGranted(lim, s);
    BetweenOfSum(s.kept, multiset(Repeat(lim.window + 1, 2)), 1, lim.window + 1);
    BetweenOfCopies(1, lim.limit - 1, 1, lim.window + 1);
    BetweenOfCopies(lim.window + 1, 2, 1, lim.window + 1);
  }

  lemma ForeignRun(lim: Limits, es: seq<Event>)
    requires lim.limit >= 2 && lim.window >= 1
    requires |es| == 4 && es[0] == Check(0, 1) && es[1] == Check(1, lim.limit - 1)
    requires es[2] == Refund(1, 0) && es[3] == Check(lim.window + 1, 2)
    ensures Between(Run(lim, es).kept, 1, lim.window + 1) == lim.limit + 1
  {
    RunFour(lim, Empty(), es);
    var s1 := Step(lim, Empty(), es[0]);
    var s2 := Step(lim, s1, es[1]);
    ForeignFirst(lim, Empty());
    ForeignFill(lim, s1);
    ForeignRefund(lim, s2);
    ForeignLast(lim, Step(lim, s2, es[2]));
  }

  /**
   A run in which it does not: the user's other operations are reserved one tick after the first, which then fails
   and gives back one of theirs. When the first would have left the window, the log has room for two more.
   */
  lemma ForeignRefundPassesLimit(lim: Limits)
    requires lim.limit >= 2 && lim.window >= 1
    ensures var w := lim.window;
            var es := [Check(0, 1), Check(1, lim.limit - 1), Refund(1, 0), Check(w + 1, 2)];
            Clock(es, 0) && Between(Run(lim, es).kept, 1, w + 1) == lim.limit + 1
  {
    ForeignRun(lim, [Check(0, 1), Check(1, lim.limit - 1), Refund(1, 0), Check(lim.window + 1, 2)]);
    ForeignClock(lim.window, lim.limit);
  }
}
