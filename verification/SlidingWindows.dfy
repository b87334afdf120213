/**
 Facts about lists of timestamps that the portal's rolling-window limiters share.

 A limiter keeps a pruned list. The ideal it is measured against is the full history, never pruned (`hist`).
 Every limiter reads the clock before it takes its lock, so a list need not be in order: `delay` bounds how
 far a reading may lie behind one that was entered earlier. With `delay` 0 the lists are sorted.
 */
module SlidingWindows {

  ghost predicate NearlySorted(s: seq<int>, delay: nat) {
    forall i, j :: 0 <= i < j < |s| ==> s[i] <= s[j] + delay
  }

  ghost predicate AllAtMost(s: seq<int>, t: int) {
    forall i :: 0 <= i < |s| ==> s[i] <= t
  }

  ghost predicate AllBelow(s: seq<int>, from: int) {
    forall i :: 0 <= i < |s| ==> s[i] < from
  }

  /** The entries at or after `from`, in order. */
  function Fresh(s: seq<int>, from: int): seq<int> {
    if s == [] then []
    else Fresh(s[..|s| - 1], from) + if s[|s| - 1] >= from then [s[|s| - 1]] else []
  }

  /** What `while dq and dq[0] < from: dq.popleft()` leaves. */
  function Dropped(s: seq<int>, from: int): seq<int> {
    if s != [] && s[0] < from then Dropped(s[1..], from) else s
  }

  /** `n` copies of `t`. */
  function Repeat(t: int, n: nat): (s: seq<int>)
    ensures |s| == n && forall i :: 0 <= i < n ==> s[i] == t
  {
    seq(n, i => t)
  }

  /** The list without its newest `n` entries, or empty. */
  function Popped(s: seq<int>, n: nat): seq<int> {
    if n <= |s| then s[..|s| - n] else []
  }

  /** Entries within the closed interval. */
  function CountWithin(s: seq<int>, lo: int, hi: int): nat {
    if s == [] then 0
    else CountWithin(s[..|s| - 1], lo, hi) + if lo <= s[|s| - 1] <= hi then 1 else 0
  }

  /** The lists end alike; before the common end both hold nothing but entries older than `from`. */
  ghost predicate Aligned(hist: seq<int>, list: seq<int>, from: int) {
    || (AllBelow(hist, from) && AllBelow(list, from))
    || (hist != [] && list != [] && hist[|hist| - 1] == list[|list| - 1]
        && Aligned(hist[..|hist| - 1], list[..|list| - 1], from))
  }

  /** `list` is `hist` with some entries left out. */
  ghost predicate Sub(list: seq<int>, hist: seq<int>) {
    || list == []
    || (hist != []
        && if list[|list| - 1] == hist[|hist| - 1] then Sub(list[..|list| - 1], hist[..|hist| - 1])
           else Sub(list, hist[..|hist| - 1]))
  }

  /** What ties a limiter's list to the full history: nothing from `from` on is missing or extra. */
  ghost predicate Linked(hist: seq<int>, list: seq<int>, from: int, delay: nat) {
    Aligned(hist, list, from) && Sub(list, hist) && NearlySorted(hist, delay) && NearlySorted(list, delay)
  }

  /** At its own time, each entry had at most `limit` entries no more than `span` older, itself included. */
  ghost predicate Paced(s: seq<int>, span: int, limit: nat) {
    s == [] || (|Fresh(s, s[|s| - 1] - span)| <= limit && Paced(s[..|s| - 1], span, limit))
  }

  // ----- fresh entries -----

  lemma {:induction false} NothingFresh(s: seq<int>, from: int)
    requires AllBelow(s, from)
    ensures Fresh(s, from) == []
  {
    if s != [] {
      NothingFresh(s[..|s| - 1], from);
    }
  }

  lemma {:induction false} AllFresh(s: seq<int>, from: int)
    requires forall i :: 0 <= i < |s| ==> s[i] >= from
    ensures Fresh(s, from) == s
  {
    if s != [] {
      AllFresh(s[..|s| - 1], from);
    }
  }

  lemma {:induction false} FreshEntries(s: seq<int>, from: int)
    ensures |Fresh(s, from)| <= |s|
    ensures forall i :: 0 <= i < |Fresh(s, from)| ==> Fresh(s, from)[i] >= from && Fresh(s, from)[i] in s
  {
    if s != [] {
      FreshEntries(s[..|s| - 1], from);
    }
  }

  lemma {:induction false} FreshFromEarlier(s: seq<int>, from: int, later: int)
    requires from <= later
    ensures |Fresh(s, later)| <= |Fresh(s, from)|
  {
    if s != [] {
      FreshFromEarlier(s[..|s| - 1], from, later);
    }
  }

  lemma {:induction false} FreshOfConcat(s: seq<int>, t: seq<int>, from: int)
    ensures Fresh(s + t, from) == Fresh(s, from) + Fresh(t, from)
  {
    if t == [] {
      assert s + t == s;
    } else {
      FreshOfConcat(s, t[..|t| - 1], from);
      assert (s + t)[..|s + t| - 1] == s + t[..|t| - 1];
    }
  }

  lemma {:induction false} FreshIsCount(s: seq<int>, lo: int, hi: int)
    requires AllAtMost(s, hi)
    ensures |Fresh(s, lo)| == CountWithin(s, lo, hi)
  {
    if s != [] {
      FreshIsCount(s[..|s| - 1], lo, hi);
    }
  }

  lemma {:induction false} CountIsAtMostFresh(s: seq<int>, lo: int, hi: int)
    ensures CountWithin(s, lo, hi) <= |Fresh(s, lo)|
  {
    if s != [] {
      CountIsAtMostFresh(s[..|s| - 1], lo, hi);
    }
  }

  lemma {:induction false} CountOfConcat(s: seq<int>, t: seq<int>, lo: int, hi: int)
    ensures CountWithin(s + t, lo, hi) == CountWithin(s, lo, hi) + CountWithin(t, lo, hi)
  {
    if t == [] {
      assert s + t == s;
    } else {
      CountOfConcat(s, t[..|t| - 1], lo, hi);
      assert (s + t)[..|s + t| - 1] == s + t[..|t| - 1];
    }
  }

  lemma {:induction false} CountOfCopies(t: int, n: nat, lo: int, hi: int)
    ensures CountWithin(Repeat(t, n), lo, hi) == if lo <= t <= hi then n else 0
    decreases n
  {
    if n > 0 {
      assert Repeat(t, n)[..n - 1] == Repeat(t, n - 1);
      CountOfCopies(t, n - 1, lo, hi);
    }
  }

  // ----- dropping from the front -----

  lemma {:induction false} DroppedIsSuffix(s: seq<int>, from: int)
    ensures |Dropped(s, from)| <= |s| && Dropped(s, from) == s[|s| - |Dropped(s, from)|..]
    ensures AllBelow(s[..|s| - |Dropped(s, from)|], from)
    ensures Dropped(s, from) == [] || Dropped(s, from)[0] >= from
  {
    if s != [] && s[0] < from {
      DroppedIsSuffix(s[1..], from);
      var k := |s| - |Dropped(s, from)|;
      assert s[..k] == [s[0]] + s[1..][..k - 1];
    }
  }

  lemma DropOldest(s: seq<int>, t: int, from: int)
    requires t < from
    ensures Dropped([t] + s, from) == Dropped(s, from)
  {
    assert ([t] + s)[1..] == s;
  }

  /** Dropping from the front sees the newest entry last. */
  lemma {:induction false} DroppedOfMore(s: seq<int>, t: int, from: int)
    ensures Dropped(s + [t], from) ==
            if AllBelow(s, from) then (if t < from then [] else [t]) else Dropped(s, from) + [t]
  {
    if s != [] && s[0] < from {
      DroppedOfMore(s[1..], t, from);
      assert (s + [t])[1..] == s[1..] + [t];
      assert AllBelow(s, from) <==> AllBelow(s[1..], from);
    }
  }

  lemma DroppedBelow(s: seq<int>, from: int)
    ensures AllBelow(s, from) ==> Dropped(s, from) == []
  {
    DroppedIsSuffix(s, from);
  }

  /** In a nearly sorted list every entry that is left is at most `delay` too old. */
  lemma DroppedIsNearlyFresh(s: seq<int>, from: int, delay: nat)
    requires NearlySorted(s, delay)
    ensures Fresh(Dropped(s, from), from - delay) == Dropped(s, from)
    ensures NearlySorted(Dropped(s, from), delay)
  {
    DroppedIsSuffix(s, from);
    AllFresh(Dropped(s, from), from - delay);
  }

  /** ... and no fresh entry goes. */
  lemma DroppedKeepsFresh(s: seq<int>, from: int)
    ensures |Fresh(s, from)| <= |Dropped(s, from)|
  {
    DroppedIsSuffix(s, from);
    var k := |s| - |Dropped(s, from)|;
    assert s == s[..k] + Dropped(s, from);
    FreshOfConcat(s[..k], Dropped(s, from), from);
    NothingFresh(s[..k], from);
    FreshEntries(Dropped(s, from), from);
  }

  // ----- the link, operation by operation -----

  lemma {:induction false} AlignedFresh(hist: seq<int>, list: seq<int>, from: int, later: int)
    requires Aligned(hist, list, from) && from <= later
    ensures Fresh(list, later) == Fresh(hist, later)
  {
    if AllBelow(hist, from) && AllBelow(list, from) {
      NothingFresh(hist, later);
      NothingFresh(list, later);
    } else {
      AlignedFresh(hist[..|hist| - 1], list[..|list| - 1], from, later);
    }
  }

  lemma {:induction false} AlignedLater(hist: seq<int>, list: seq<int>, from: int, later: int)
    requires Aligned(hist, list, from) && from <= later
    ensures Aligned(hist, list, later)
  {
    if !(AllBelow(hist, from) && AllBelow(list, from)) {
      AlignedLater(hist[..|hist| - 1], list[..|list| - 1], from, later);
    }
  }

  lemma {:induction false} AlignedBelow(hist: seq<int>, list: seq<int>, from: int)
    requires Aligned(hist, list, from) && AllBelow(list, from)
    ensures AllBelow(hist, from)
  {
    if && hist != [] && list != [] && hist[|hist| - 1] == list[|list| - 1]
       && Aligned(hist[..|hist| - 1], list[..|list| - 1], from)
    {
      AlignedBelow(hist[..|hist| - 1], list[..|list| - 1], from);
    }
  }

  lemma {:induction false} SubFresh(list: seq<int>, hist: seq<int>, from: int)
    requires Sub(list, hist)
    ensures |Fresh(list, from)| <= |Fresh(hist, from)| && |list| <= |hist|
    decreases |hist|
  {
    if list != [] {
      if list[|list| - 1] == hist[|hist| - 1] {
        SubFresh(list[..|list| - 1], hist[..|hist| - 1], from);
      } else {
        SubFresh(list, hist[..|hist| - 1], from);
      }
    }
  }

  lemma {:induction false} SubEntries(list: seq<int>, hist: seq<int>)
    requires Sub(list, hist)
    ensures forall x :: x in list ==> x in hist
    decreases |hist|
  {
    if list != [] {
      if list[|list| - 1] == hist[|hist| - 1] {
        SubEntries(list[..|list| - 1], hist[..|hist| - 1]);
        assert list == list[..|list| - 1] + [list[|list| - 1]];
      } else {
        SubEntries(list, hist[..|hist| - 1]);
      }
    }
  }

  /** Leaving out the newest entry as well. */
  lemma {:induction false} SubShorter(list: seq<int>, hist: seq<int>)
    requires list != [] && Sub(list, hist)
    ensures Sub(list[..|list| - 1], hist)
    decreases |hist|
  {
    var l, h := list[..|list| - 1], hist[..|hist| - 1];
    if list[|list| - 1] != hist[|hist| - 1] {
      SubShorter(list, h);
    }
    assert Sub(l, h);
    if l != [] && l[|l| - 1] == hist[|hist| - 1] {
      SubShorter(l, h);
    }
  }

  lemma {:induction false} SubOfMore(list: seq<int>, hist: seq<int>, t: int)
    requires Sub(list, hist)
    ensures Sub(list, hist + [t])
    decreases |hist|
  {
    assert (hist + [t])[..|hist|] == hist;
    if list != [] && list[|list| - 1] == t {
      SubShorter(list, hist);
    }
  }

  /** Filtering out entries below `c`. */
  lemma {:induction false} FilterKeepsAligned(hist: seq<int>, list: seq<int>, c: int, from: int, delay: nat)
    requires Aligned(hist, list, from) && Sub(list, hist) && NearlySorted(hist, delay) && c + delay <= from
    ensures Aligned(hist, Fresh(list, c), from)
  {
    FreshEntries(list, c);
    if AllBelow(hist, from) && AllBelow(list, from) {
      assert AllBelow(Fresh(list, c), from);
    } else {
      var y := list[|list| - 1];
      if y < c {
        assert AllBelow(hist, from);
        SubEntries(list, hist);
        assert AllBelow(Fresh(list, c), from);
      } else {
        FilterKeepsAligned(hist[..|hist| - 1], list[..|list| - 1], c, from, delay);
        assert Fresh(list, c)[..|Fresh(list, c)| - 1] == Fresh(list[..|list| - 1], c);
      }
    }
  }

  lemma {:induction false} FilterKeepsSub(list: seq<int>, hist: seq<int>, c: int)
    requires Sub(list, hist)
    ensures Sub(Fresh(list, c), hist)
    decreases |hist|
  {
    if list != [] {
      var h, y := hist[..|hist| - 1], hist[|hist| - 1];
      assert h + [y] == hist;
      if list[|list| - 1] == y {
        FilterKeepsSub(list[..|list| - 1], h, c);
        if y >= c {
          var f := Fresh(list, c);
          assert f[|f| - 1] == y && f[..|f| - 1] == Fresh(list[..|list| - 1], c);
        } else {
          SubOfMore(Fresh(list[..|list| - 1], c), h, y);
          assert Fresh(list, c) == Fresh(list[..|list| - 1], c);
        }
      } else {
        FilterKeepsSub(list, h, c);
        SubOfMore(Fresh(list, c), h, y);
      }
    }
  }

  lemma {:induction false} FilterKeepsOrder(s: seq<int>, c: int, delay: nat)
    requires NearlySorted(s, delay)
    ensures NearlySorted(Fresh(s, c), delay)
  {
    if s != [] {
      FilterKeepsOrder(s[..|s| - 1], c, delay);
      FreshEntries(s[..|s| - 1], c);
    }
  }

  lemma FilterKeepsLink(hist: seq<int>, list: seq<int>, c: int, from: int, delay: nat)
    requires Linked(hist, list, from, delay) && c + delay <= from
    ensures Linked(hist, Fresh(list, c), from, delay)
  {
    FilterKeepsAligned(hist, list, c, from, delay);
    FilterKeepsSub(list, hist, c);
    FilterKeepsOrder(list, c, delay);
  }

  lemma {:induction false} DropKeepsAligned(hist: seq<int>, list: seq<int>, c: int, from: int)
    requires Aligned(hist, list, from) && c <= from
    ensures Aligned(hist, Dropped(list, c), from)
  {
    DroppedIsSuffix(list, c);
    if AllBelow(hist, from) && AllBelow(list, from) {
      assert AllBelow(Dropped(list, c), from);
    } else if AllBelow(list, c) {
      AlignedBelow(hist, list, from);
      DroppedBelow(list, c);
    } else {
      var l, y := list[..|list| - 1], list[|list| - 1];
      assert list == l + [y];
      DroppedOfMore(l, y, c);
      DropKeepsAligned(hist[..|hist| - 1], l, c, from);
      DroppedBelow(l, c);
      assert Dropped(list, c) == Dropped(l, c) + [y];
    }
  }

  lemma {:induction false} SubWithoutFirst(list: seq<int>, hist: seq<int>)
    requires list != [] && Sub(list, hist)
    ensures Sub(list[1..], hist)
    decreases |hist|
  {
    if |list| > 1 {
      if list[|list| - 1] == hist[|hist| - 1] {
        SubWithoutFirst(list[..|list| - 1], hist[..|hist| - 1]);
        assert list[1..][..|list| - 2] == list[..|list| - 1][1..];
      } else {
        SubWithoutFirst(list, hist[..|hist| - 1]);
      }
    }
  }

  lemma {:induction false} DropKeepsSub(list: seq<int>, hist: seq<int>, c: int)
    requires Sub(list, hist)
    ensures Sub(Dropped(list, c), hist)
    decreases |list|
  {
    if list != [] && list[0] < c {
      SubWithoutFirst(list, hist);
      DropKeepsSub(list[1..], hist, c);
    }
  }

  lemma DropKeepsLink(hist: seq<int>, list: seq<int>, c: int, from: int, delay: nat)
    requires Linked(hist, list, from, delay) && c <= from
    ensures Linked(hist, Dropped(list, c), from, delay)
  {
    DropKeepsAligned(hist, list, c, from);
    DropKeepsSub(list, hist, c);
    DroppedIsNearlyFresh(list, c, delay);
  }

  lemma PushKeepsOrder(s: seq<int>, t: int, delay: nat)
    requires NearlySorted(s, delay) && AllAtMost(s, t + delay)
    ensures NearlySorted(s + [t], delay)
  {
  }

  lemma PushOne(hist: seq<int>, list: seq<int>, t: int, from: int, delay: nat)
    requires Linked(hist, list, from, delay) && AllAtMost(hist, t + delay)
    ensures Linked(hist + [t], list + [t], from, delay)
  {
    SubEntries(list, hist);
    assert AllAtMost(list, t + delay) by {
      forall i | 0 <= i < |list| ensures list[i] <= t + delay { assert list[i] in hist; }
    }
    PushKeepsOrder(hist, t, delay);
    PushKeepsOrder(list, t, delay);
    assert (hist + [t])[..|hist|] == hist && (list + [t])[..|list|] == list;
  }

  lemma SameLink(hist: seq<int>, list: seq<int>, hist': seq<int>, list': seq<int>, from: int, delay: nat)
    requires Linked(hist, list, from, delay) && hist == hist' && list == list'
    ensures Linked(hist', list', from, delay)
  {
  }

  lemma OneMoreCopy(s: seq<int>, t: int, n: nat)
    requires n > 0
    ensures s + Repeat(t, n) == s + Repeat(t, n - 1) + [t]
  {
  }

  lemma PushKeepsAtMost(s: seq<int>, t: int, n: nat, bound: int)
    requires AllAtMost(s, bound) && t <= bound
    ensures AllAtMost(s + Repeat(t, n), bound)
  {
  }

  lemma {:induction false} PushKeepsLink(hist: seq<int>, list: seq<int>, t: int, n: nat, from: int, delay: nat)
    requires Linked(hist, list, from, delay) && AllAtMost(hist, t + delay)
    ensures Linked(hist + Repeat(t, n), list + Repeat(t, n), from, delay)
    decreases n
  {
    if n == 0 {
      SameLink(hist, list, hist + Repeat(t, 0), list + Repeat(t, 0), from, delay);
    } else {
      var h, l := hist + Repeat(t, n - 1), list + Repeat(t, n - 1);
      PushKeepsLink(hist, list, t, n - 1, from, delay);
      PushKeepsAtMost(hist, t, n - 1, t + delay);
      PushOne(h, l, t, from, delay);
      OneMoreCopy(hist, t, n);
      OneMoreCopy(list, t, n);
      SameLink(h + [t], l + [t], hist + Repeat(t, n), list + Repeat(t, n), from, delay);
    }
  }

  lemma PopNone(s: seq<int>)
    ensures Popped(s, 0) == s
  {
  }

  lemma PopOneMore(s: seq<int>, n: nat)
    ensures Popped(Popped(s, n), 1) == Popped(s, n + 1)
  {
  }

  /** Taking the newest entry off both keeps the link, even where the newest entries differ. */
  lemma PopOne(hist: seq<int>, list: seq<int>, from: int, delay: nat)
    requires Linked(hist, list, from, delay)
    ensures Linked(Popped(hist, 1), Popped(list, 1), from, delay)
  {
    if list != [] && list[|list| - 1] != hist[|hist| - 1] {
      SubShorter(list, hist[..|hist| - 1]);
    }
  }

  lemma {:induction false} PopKeepsLink(hist: seq<int>, list: seq<int>, n: nat, from: int, delay: nat)
    requires Linked(hist, list, from, delay)
    ensures Linked(Popped(hist, n), Popped(list, n), from, delay)
    decreases n
  {
    if n == 0 {
      PopNone(hist);
      PopNone(list);
    } else {
      PopKeepsLink(hist, list, n - 1, from, delay);
      PopOne(Popped(hist, n - 1), Popped(list, n - 1), from, delay);
      PopOneMore(hist, n - 1);
      PopOneMore(list, n - 1);
    }
  }

  /** Forgetting a whole list whose entries are all old. */
  lemma ForgetKeepsLink(hist: seq<int>, list: seq<int>, from: int, delay: nat)
    requires Linked(hist, list, from, delay) && AllBelow(list, from)
    ensures Linked(hist, [], from, delay)
  {
    AlignedBelow(hist, list, from);
  }

  // ----- the window bound -----

  lemma PushedCount(s: seq<int>, t: int, n: nat, span: int)
    requires span >= 0
    ensures |Fresh(s + Repeat(t, n), t - span)| == |Fresh(s, t - span)| + n
  {
    FreshOfConcat(s, Repeat(t, n), t - span);
    AllFresh(Repeat(t, n), t - span);
  }

  lemma SamePace(s: seq<int>, s': seq<int>, span: int, limit: nat)
    requires Paced(s, span, limit) && s == s'
    ensures Paced(s', span, limit)
  {
  }

  lemma OnePaced(s: seq<int>, t: int, span: int, limit: nat)
    requires Paced(s, span, limit) && |Fresh(s + [t], t - span)| <= limit
    ensures Paced(s + [t], span, limit)
  {
    assert (s + [t])[..|s|] == s;
  }

  /** A push that fits keeps the pace. */
  lemma {:induction false} PushKeepsPace(s: seq<int>, t: int, n: nat, span: int, limit: nat)
    requires Paced(s, span, limit) && |Fresh(s, t - span)| + n <= limit && span >= 0
    ensures Paced(s + Repeat(t, n), span, limit)
    decreases n
  {
    if n == 0 {
      SamePace(s, s + Repeat(t, 0), span, limit);
    } else {
      PushKeepsPace(s, t, n - 1, span, limit);
      PushedCount(s, t, n, span);
      OneMoreCopy(s, t, n);
      OnePaced(s + Repeat(t, n - 1), t, span, limit);
      SamePace(s + Repeat(t, n - 1) + [t], s + Repeat(t, n), span, limit);
    }
  }

  lemma {:induction false} PopKeepsPace(s: seq<int>, n: nat, span: int, limit: nat)
    requires Paced(s, span, limit)
    ensures Paced(Popped(s, n), span, limit)
    decreases n
  {
    if n == 0 {
      PopNone(s);
    } else {
      PopKeepsPace(s, n - 1, span, limit);
      PopOneMore(s, n - 1);
      assert Popped(s, n - 1) != [] ==> Popped(Popped(s, n - 1), 1) == Popped(s, n - 1)[..|Popped(s, n - 1)| - 1];
    }
  }

  lemma {:induction false} PaceOfShorter(s: seq<int>, span: int, shorter: int, limit: nat)
    requires Paced(s, span, limit) && shorter <= span
    ensures Paced(s, shorter, limit)
  {
    if s != [] {
      PaceOfShorter(s[..|s| - 1], span, shorter, limit);
      FreshFromEarlier(s, s[|s| - 1] - span, s[|s| - 1] - shorter);
    }
  }

  /** Pace is the promise of a limit: no closed window of length `span` holds more than `limit` entries. */
  lemma {:induction false} PacedBoundsEveryWindow(s: seq<int>, span: int, limit: nat, lo: int)
    requires Paced(s, span, limit)
    ensures CountWithin(s, lo, lo + span) <= limit
  {
    if s != [] {
      var last := s[|s| - 1];
      if lo <= last <= lo + span {
        CountIsAtMostFresh(s, lo, lo + span);
        FreshFromEarlier(s, last - span, lo);
      } else {
        PacedBoundsEveryWindow(s[..|s| - 1], span, limit, lo);
      }
    }
  }

  /** The popping loop of the deque limiters. */
  method DropExpired(dq: seq<int>, from: int) returns (out: seq<int>)
    ensures out == Dropped(dq, from)
  {
    out := dq;
    while out != [] && out[0] < from
      invariant Dropped(out, from) == Dropped(dq, from)
      decreases |out|
    {
      out := out[1..];
    }
  }
}
