/**
 The portal's per-user email and PDF limits (`portal/api.py`), with their refunds, against a history
 that is never pruned.

 A check reads the clock before it takes the lock, so a reading may be up to `delay` older than one that was
 entered before it. Times are whole ticks; an entry exactly `window` ticks old still counts.
 */
module RateLimits {
  import opened SlidingWindows

  datatype Limits = Limits(window: nat, limit: nat)

  const EMAIL := Limits(3600, 100)
  const PDF := Limits(3600, 120)

  // ----- one user's log, reserve and refund -----

  /** `Check` asks for `n` slots, having read `now`; `Refund` gives back `n` slots that its caller took at `at`. */
  datatype Event = Check(now: int, n: nat) | Refund(n: nat, at: int)

  /** The pruned deque after `_check_email_rate` / `_check_pdf_rate`, and whether the slots were granted. */
  function Reserve(dq: seq<int>, lim: Limits, now: int, n: nat): (bool, seq<int>) {
    var recent := Dropped(dq, now - lim.window);
    if |recent| + n > lim.limit then (false, recent) else (true, recent + Repeat(now, n))
  }

  /**
   The program's deque, and two ideals it is held against: every slot granted since the start less the
   refunds, which take the newest (`net`), and the times of the operations granted and not given back by their
   own callers (`kept`).
   */
  datatype Log = Log(dq: seq<int>, net: seq<int>, kept: multiset<int>)

  function Step(lim: Limits, s: Log, e: Event): Log {
    match e
    case Check(now, n) =>
      var (ok, dq) := Reserve(s.dq, lim, now, n);
      if ok then Log(dq, s.net + Repeat(now, n), s.kept + multiset(Repeat(now, n))) else s.(dq := dq)
    case Refund(n, at) => Log(Popped(s.dq, n), Popped(s.net, n), s.kept - multiset(Repeat(at, n)))
  }

  function RunFrom(lim: Limits, s: Log, es: seq<Event>): Log {
    if es == [] then s else Step(lim, RunFrom(lim, s, es[..|es| - 1]), es[|es| - 1])
  }

  function Empty(): Log {
    Log([], [], multiset{})
  }

  function Run(lim: Limits, es: seq<Event>): Log {
    RunFrom(lim, Empty(), es)
  }

  /** The program's answer to a check that follows the events. */
  predicate Granted(lim: Limits, es: seq<Event>, now: int, n: nat) {
    Reserve(Run(lim, es).dq, lim, now, n).0
  }

  /** What a check leaves of the deque, granted or not, and that a refused one enters nothing. */
  lemma CheckPrunes(lim: Limits, s: Log, now: int, n: nat)
    ensures var (granted, dq) := Reserve(s.dq, lim, now, n);
            var entered := Repeat(now, if granted then n else 0);
            && Step(lim, s, Check(now, n)).dq == dq == Dropped(s.dq, now - lim.window) + entered
            && Step(lim, s, Check(now, n)).net == s.net + entered
  {
  }

  /** No reading is more than `delay` older than one entered before it. */
  ghost predicate Clock(es: seq<Event>, delay: nat) {
    forall i, j :: 0 <= i < j < |es| && es[i].Check? && es[j].Check? ==> es[i].now <= es[j].now + delay
  }

  /** ... nor is `now`, read next. */
  ghost predicate ReadBy(es: seq<Event>, now: int, delay: nat) {
    Clock(es, delay) && forall i :: 0 <= i < |es| && es[i].Check? ==> es[i].now <= now + delay
  }

  lemma ReadBefore(es: seq<Event>, now: int, delay: nat)
    requires es != [] && ReadBy(es, now, delay)
    ensures ReadBy(es[..|es| - 1], now, delay)
    ensures es[|es| - 1].Check? ==> ReadBy(es[..|es| - 1], es[|es| - 1].now, delay)
  {
  }

  /** What a log and its history have in common for a check that has read `now`. */
  ghost predicate Sound(lim: Limits, s: Log, now: int, delay: nat) {
    Linked(s.net, s.dq, now + delay - lim.window, delay) && AllAtMost(s.net, now + delay)
  }

  /** What the deque counts lies between two counts of the history. */
  ghost predicate Brackets(lim: Limits, s: Log, now: int, delay: nat) {
    && |Fresh(s.net, now - lim.window + delay)| <= |Dropped(s.dq, now - lim.window)|
    && |Dropped(s.dq, now - lim.window)| <= |Fresh(s.net, now - lim.window - delay)|
  }

  lemma CheckKeepsSound(lim: Limits, s: Log, t: int, n: nat, now: int, delay: nat)
    requires Sound(lim, s, now, delay) && AllAtMost(s.net, t + delay) && t <= now + delay
    ensures Sound(lim, Step(lim, s, Check(t, n)), now, delay)
  {
    var from := now + delay - lim.window;
    DropKeepsLink(s.net, s.dq, t - lim.window, from, delay);
    if Reserve(s.dq, lim, t, n).0 {
      PushKeepsLink(s.net, Dropped(s.dq, t - lim.window), t, n, from, delay);
      PushKeepsAtMost(s.net, t, n, now + delay);
    }
  }

  lemma RefundKeepsSound(lim: Limits, s: Log, n: nat, at: int, now: int, delay: nat)
    requires Sound(lim, s, now, delay)
    ensures Sound(lim, Step(lim, s, Refund(n, at)), now, delay)
  {
    PopKeepsLink(s.net, s.dq, n, now + delay - lim.window, delay);
  }

  lemma {:induction false} RunIsSound(lim: Limits, es: seq<Event>, now: int, delay: nat)
    requires ReadBy(es, now, delay)
    ensures Sound(lim, Run(lim, es), now, delay)
  {
    if es != [] {
      var before, e := es[..|es| - 1], es[|es| - 1];
      ReadBefore(es, now, delay);
      RunIsSound(lim, before, now, delay);
      match e
      case Check(t, n) =>
        RunIsSound(lim, before, t, delay);
        CheckKeepsSound(lim, Run(lim, before), t, n, now, delay);
      case Refund(n, at) => RefundKeepsSound(lim, Run(lim, before), n, at, now, delay);
    }
  }

  lemma NoneMissing(net: seq<int>, dq: seq<int>, c: int, delay: nat)
    requires Linked(net, dq, c + delay, delay)
    ensures |Fresh(net, c + delay)| <= |Dropped(dq, c)|
  {
    AlignedFresh(net, dq, c + delay, c + delay);
    DroppedKeepsFresh(dq, c);
    FreshFromEarlier(dq, c, c + delay);
  }

  lemma NoneMuchTooOld(net: seq<int>, dq: seq<int>, c: int, delay: nat)
    requires Linked(net, dq, c + delay, delay)
    ensures |Dropped(dq, c)| <= |Fresh(net, c - delay)|
  {
    DroppedIsNearlyFresh(dq, c, delay);
    DropKeepsSub(dq, net, c);
    SubFresh(Dropped(dq, c), net, c - delay);
  }

  /** What the check decides by: no fresh slot is missing from the deque, and no slot in it is much too old. */
  lemma DecidesNearly(lim: Limits, s: Log, now: int, delay: nat)
    requires Sound(lim, s, now, delay)
    ensures Brackets(lim, s, now, delay)
  {
    var c := now - lim.window;
    assert Linked(s.net, s.dq, c + delay, delay);
    NoneMissing(s.net, s.dq, c, delay);
    NoneMuchTooOld(s.net, s.dq, c, delay);
  }

  lemma {:induction false} RunIsBracketed(lim: Limits, es: seq<Event>, now: int, delay: nat)
    requires ReadBy(es, now, delay)
    ensures Brackets(lim, Run(lim, es), now, delay) && AllAtMost(Run(lim, es).net, now + delay)
  {
    RunIsSound(lim, es, now, delay);
    DecidesNearly(lim, Run(lim, es), now, delay);
  }

  lemma BracketsDecide(lim: Limits, s: Log, now: int, n: nat, delay: nat)
    requires Brackets(lim, s, now, delay) && AllAtMost(s.net, now + delay)
    ensures var granted := Reserve(s.dq, lim, now, n).0;
            && (granted ==> CountWithin(s.net, now - lim.window + delay, now + delay) + n <= lim.limit)
            && (!granted ==> CountWithin(s.net, now - lim.window - delay, now + delay) + n > lim.limit)
  {
    FreshIsCount(s.net, now - lim.window + delay, now + delay);
    FreshIsCount(s.net, now - lim.window - delay, now + delay);
  }

  /**
   The pruned log decides as the full one would. Over every run of checks and refunds whose readings are at
   most `delay` old, a granted request fits the net slots of a window shortened by `delay`, and a refused one does
   not fit those of a window lengthened by it; with readings in order, a check is refused exactly when the net
   slots in [now - window, now] and the request together pass the limit.
   */
  lemma DecidesAsFullHistory(lim: Limits, es: seq<Event>, now: int, n: nat, delay: nat)
    requires ReadBy(es, now, delay)
    ensures var net := Run(lim, es).net;
            && (Granted(lim, es, now, n) ==> CountWithin(net, now - lim.window + delay, now + delay) + n <= lim.limit)
            && (!Granted(lim, es, now, n) ==> CountWithin(net, now - lim.window - delay, now + delay) + n > lim.limit)
            && (delay == 0 ==> (Granted(lim, es, now, n) <==> CountWithin(net, now - lim.window, now) + n <= lim.limit))
  {
    RunIsBracketed(lim, es, now, delay);
    BracketsDecide(lim, Run(lim, es), now, n, delay);
  }

  lemma PaceStep(lim: Limits, s: Log, e: Event, delay: nat)
    requires Paced(s.net, lim.window - delay, lim.limit) && delay <= lim.window
    requires e.Check? ==> Brackets(lim, s, e.now, delay)
    ensures Paced(Step(lim, s, e).net, lim.window - delay, lim.limit)
  {
    match e
    case Check(t, n) =>
      if Reserve(s.dq, lim, t, n).0 {
        PushKeepsPace(s.net, t, n, lim.window - delay, lim.limit);
      }
    case Refund(n, _) => PopKeepsPace(s.net, n, lim.window - delay, lim.limit);
  }

  lemma {:induction false} RunIsPaced(lim: Limits, es: seq<Event>, delay: nat)
    requires Clock(es, delay) && delay <= lim.window
    ensures Paced(Run(lim, es).net, lim.window - delay, lim.limit)
  {
    if es != [] {
      var before, e := es[..|es| - 1], es[|es| - 1];
      RunIsPaced(lim, before, delay);
      if e.Check? {
        RunIsBracketed(lim, before, e.now, delay);
      }
      PaceStep(lim, Run(lim, before), e, delay);
    }
  }

  /**
   With readings at most `delay` old, no closed window shorter than the limit's by `delay` holds more net slots
   than the limit.
   */
  lemma NoWindowOverLimit(lim: Limits, es: seq<Event>, delay: nat, lo: int)
    requires Clock(es, delay) && delay <= lim.window
    ensures CountWithin(Run(lim, es).net, lo, lo + lim.window - delay) <= lim.limit
  {
    RunIsPaced(lim, es, delay);
    PacedBoundsEveryWindow(Run(lim, es).net, lim.window - delay, lim.limit, lo);
  }

  /** Net slots in a closed window after a run. */
  function WindowCount(lim: Limits, es: seq<Event>, lo: int, span: nat): nat {
    CountWithin(Run(lim, es).net, lo, lo + span)
  }

  ghost predicate BoundsWindows(lim: Limits, delay: nat, span: nat) {
    forall es, lo :: Clock(es, delay) ==> WindowCount(lim, es, lo, span) <= lim.limit
  }

  /** A check that has waited `delay` for the lock, after a later one was granted and given back. */
  function LateRun(lim: Limits, late: int): seq<Event> {
    [Check(0, 1), Check(lim.window + 1, 1), Refund(1, lim.window + 1), Check(late, lim.limit)]
  }

  lemma RunFour(lim: Limits, s: Log, es: seq<Event>)
    requires |es| == 4
    ensures RunFrom(lim, s, es) == Step(lim, Step(lim, Step(lim, Step(lim, s, es[0]), es[1]), es[2]), es[3])
  {
    assert es[..1][..0] == [] && es[..2][..1] == es[..1] && es[..3][..2] == es[..2];
    assert RunFrom(lim, s, es[..1][..0]) == s;
    assert RunFrom(lim, s, es[..1]) == Step(lim, s, es[0]);
    assert RunFrom(lim, s, es[..2]) == Step(lim, RunFrom(lim, s, es[..1]), es[1]);
    assert RunFrom(lim, s, es[..3]) == Step(lim, RunFrom(lim, s, es[..2]), es[2]);
  }

  lemma LateStart(lim: Limits, s: Log)
    requires lim.limit >= 1 && s.dq == [] && s.net == []
    ensures Step(lim, s, Check(0, 1)).dq == [0] == Step(lim, s, Check(0, 1)).net
  {
    assert Repeat(0, 1) == [0];
  }

  lemma LateSecond(lim: Limits, s: Log)
    requires lim.limit >= 1 && s.dq == [0] && s.net == [0]
    ensures var s' := Step(lim, s, Check(lim.window + 1, 1)); s'.dq == [lim.window + 1] && s'.net == [0, lim.window + 1]
  {
    assert Repeat(lim.window + 1, 1) == [lim.window + 1];
    assert Dropped([0], 1) == Dropped([], 1) == [];
  }

  lemma LateRefund(lim: Limits, s: Log)
    requires s.dq == [lim.window + 1] && s.net == [0, lim.window + 1]
    ensures var s' := Step(lim, s, Refund(1, lim.window + 1)); s'.dq == [] && s'.net == [0]
  {
  }

  lemma LateEnd(lim: Limits, s: Log, late: int, span: nat)
    requires s.dq == [] && s.net == [0] && 0 <= late <= span
    ensures CountWithin(Step(lim, s, Check(late, lim.limit)).net, 0, 0 + span) == lim.limit + 1
  {
    CountOfConcat([0], Repeat(late, lim.limit), 0, 0 + span);
    CountOfCopies(late, lim.limit, 0, 0 + span);
    assert CountWithin([0], 0, 0 + span) == 1;
  }

  lemma LateSteps(lim: Limits, es: seq<Event>, late: int, span: nat)
    requires lim.limit >= 1 && 0 <= late <= span
    requires |es| == 4 && es[0] == Check(0, 1) && es[1] == Check(lim.window + 1, 1)
    requires es[2] == Refund(1, lim.window + 1) && es[3] == Check(late, lim.limit)
    ensures WindowCount(lim, es, 0, span) == lim.limit + 1
  {
    RunFour(lim, Empty(), es);
    var s1 := Step(lim, Empty(), es[0]);
    var s2 := Step(lim, s1, es[1]);
    LateStart(lim, Empty());
    LateSecond(lim, s1);
    LateRefund(lim, s2);
    LateEnd(lim, Step(lim, s2, es[2]), late, span);
  }

  lemma LateRunOverflows(lim: Limits, late: int, span: nat)
    requires lim.limit >= 1 && 0 <= late <= span
    ensures WindowCount(lim, LateRun(lim, late), 0, span) == lim.limit + 1
  {
    LateSteps(lim, LateRun(lim, late), late, span);
  }

  /**
   Shortening by `delay` is exact: over all runs with readings at most that old, the closed windows of a
   length are kept to the limit if and only if the length and the delay together do not pass the window.
   */
  lemma WindowBoundIff(lim: Limits, delay: nat, span: nat)
    requires lim.limit >= 1
    ensures BoundsWindows(lim, delay, span) <==> span + delay <= lim.window
  {
    if span + delay <= lim.window {
      forall es, lo | Clock(es, delay)
        ensures WindowCount(lim, es, lo, span) <= lim.limit
      {
        RunIsPaced(lim, es, delay);
        PaceOfShorter(Run(lim, es).net, lim.window - delay, span, lim.limit);
        PacedBoundsEveryWindow(Run(lim, es).net, span, lim.limit, lo);
      }
    } else {
      var late := if delay <= lim.window + 1 then lim.window + 1 - delay else 0;
      LateRunOverflows(lim, late, span);
      assert Clock(LateRun(lim, late), delay);
      assert WindowCount(lim, LateRun(lim, late), 0, span) > lim.limit;
    }
  }

  lemma ExtendRun(lim: Limits, es: seq<Event>, e: Event)
    ensures Run(lim, es + [e]) == Step(lim, Run(lim, es), e)
  {
    assert (es + [e])[..|es|] == es;
  }

  /** The per-user dictionary of deques, as `portal/api.py` keeps it. */
  class RateLog {
    const lim: Limits
    var log: map<nat, seq<int>>

    constructor (lim: Limits)
      ensures this.lim == lim && log == map[]
    {
      this.lim := lim;
      log := map[];
    }

    function Of(user: nat): seq<int>
      reads this
    {
      if user in log then log[user] else []
    }

    method Check(user: nat, now: int, n: nat) returns (granted: bool)
      modifies this
      ensures (granted, Of(user)) == Reserve(old(Of(user)), lim, now, n)
      ensures forall u :: u != user ==> Of(u) == old(Of(u))
    {
      var dq := DropExpired(Of(user), now - lim.window);
      granted := |dq| + n <= lim.limit;
      log := log[user := if granted then dq + Repeat(now, n) else dq];
    }

    method Refund(user: nat, n: nat)
      modifies this
      ensures Of(user) == Popped(old(Of(user)), n)
      ensures forall u :: u != user ==> Of(u) == old(Of(u))
    {
      if user in log {
        var dq, i := log[user], 0;
        while i < n && dq != []
          invariant 0 <= i <= n && dq == Popped(old(Of(user)), i)
        {
          dq, i := dq[..|dq| - 1], i + 1;
        }
        log := log[user := dq];
      }
    }
  }
}
