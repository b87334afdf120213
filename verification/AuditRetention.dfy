/**
 `portal/audit.py`, `prune`: two retention buckets in one table, each trimmed to its newest rows by id.
 A DELETE that fails is rolled back and the next bucket still gets its turn.
 */
module AuditRetention {
  import opened Basics

  const MAX_ROWS := 5000
  const MAX_NOISY_ROWS := 5000

  /** Row ids with their bucket: true for the noisy actions. */
  type Table = map<nat, bool>

  function Bucket(t: Table, noisy: bool): set<nat> {
    set id | id in t && t[id] == noisy
  }

  function Newer(ids: set<nat>, id: nat): set<nat> {
    set k | k in ids && k > id
  }

  function Cap(noisy: bool): nat {
    if noisy then MAX_NOISY_ROWS else MAX_ROWS
  }

  /** The row is among the newest `Cap` of its own bucket. */
  predicate Recent(t: Table, id: nat)
    requires id in t
  {
    |Newer(Bucket(t, t[id]), id)| < Cap(t[id])
  }

  predicate IsNewest(ids: set<nat>, m: nat) {
    m in ids && forall k :: k in ids ==> k <= m
  }

  lemma {:induction false} NewestExists(ids: set<nat>)
    requires ids != {}
    ensures exists m :: IsNewest(ids, m)
  {
    var k :| k in ids;
    if ids - {k} != {} {
      NewestExists(ids - {k});
      var m :| IsNewest(ids - {k}, m);
      assert forall j :: j in ids ==> j == k || j in ids - {k};
      assert IsNewest(ids, if k > m then k else m);
    } else {
      assert forall j :: j in ids ==> j == k || j in ids - {k};
      assert IsNewest(ids, k);
    }
  }

  /** `rest` is `ids` without its newest `n`. */
  ghost predicate Without(ids: set<nat>, n: nat, rest: set<nat>) {
    rest <= ids && |rest| + n == |ids| && forall j, k :: j in ids && j !in rest && k in rest ==> j > k
  }

  lemma TakeNewest(ids: set<nat>, n: nat, rest: set<nat>, m: nat)
    requires Without(ids, n, rest) && IsNewest(rest, m)
    ensures Without(ids, n + 1, rest - {m}) && |Newer(ids, m)| == n
  {
    assert Newer(ids, m) == ids - rest;
  }

  /** `ORDER BY id DESC OFFSET n LIMIT 1`. */
  method NthNewest(ids: set<nat>, n: nat) returns (r: Option<nat>)
    ensures r.None? <==> |ids| <= n
    ensures r.Some? ==> r.value in ids && |Newer(ids, r.value)| == n
  {
    var rest, i := ids, 0;
    while i < n && rest != {}
      invariant i <= n && Without(ids, i, rest)
    {
      NewestExists(rest);
      var m :| IsNewest(rest, m);
      TakeNewest(ids, i, rest, m);
      rest, i := rest - {m}, i + 1;
    }
    if rest == {} {
      return None;
    }
    NewestExists(rest);
    var m :| IsNewest(rest, m);
    TakeNewest(ids, n, rest, m);
    return Some(m);
  }

  /** A row at or below the one at rank `keep` is exactly one that is not among the newest `keep`. */
  lemma RankOfCutoff(ids: set<nat>, cutoff: nat, id: nat, keep: nat)
    requires cutoff in ids && id in ids && |Newer(ids, cutoff)| == keep
    ensures id <= cutoff <==> |Newer(ids, id)| >= keep
  {
    if id <= cutoff {
      SubsetSize(Newer(ids, cutoff), Newer(ids, id));
    } else {
      assert id in Newer(ids, cutoff) && Newer(ids, id) <= Newer(ids, cutoff) - {id};
      SubsetSize(Newer(ids, id), Newer(ids, cutoff) - {id});
    }
  }

  /** What one bucket keeps when its turn does not fail. */
  function Trimmed(t: Table, noisy: bool): Table {
    map id | id in t && (t[id] == noisy ==> Recent(t, id)) :: t[id]
  }

  method PruneBucket(t: Table, noisy: bool, fails: bool) returns (out: Table)
    ensures out == if fails then t else Trimmed(t, noisy)
  {
    var ids := Bucket(t, noisy);
    var cutoff := NthNewest(ids, Cap(noisy));
    if cutoff.None? {
      forall id | id in ids ensures |Newer(ids, id)| < Cap(noisy) {
        SubsetSize(Newer(ids, id), ids - {id});
      }
      assert Trimmed(t, noisy) == t;
      return t;
    }
    if fails {
      return t;
    }
    forall id | id in ids ensures id <= cutoff.value <==> |Newer(ids, id)| >= Cap(noisy) {
      RankOfCutoff(ids, cutoff.value, id, Cap(noisy));
    }
    out := map id | id in t && !(t[id] == noisy && id <= cutoff.value) :: t[id];
  }

  /** `prune`; `noisyFails` and `restFails` say which DELETE raises. */
  method Prune(t: Table, noisyFails: bool, restFails: bool) returns (out: Table)
    ensures out == var half := if noisyFails then t else Trimmed(t, true);
                   if restFails then half else Trimmed(half, false)
  {
    out := t;
    var turns := [(true, noisyFails), (false, restFails)];
    var i := 0;
    while i < 2
      invariant 0 <= i <= 2
      invariant i == 0 ==> out == t
      invariant i == 1 ==> out == if noisyFails then t else Trimmed(t, true)
      invariant i == 2 ==> out == var half := if noisyFails then t else Trimmed(t, true);
                                  if restFails then half else Trimmed(half, false)
    {
      out := PruneBucket(out, turns[i].0, turns[i].1);
      i := i + 1;
    }
  }

  /** Trimming one bucket changes neither the rows nor the ranks of the other. */
  lemma BucketsAreIndependent(t: Table, noisy: bool)
    ensures Bucket(Trimmed(t, noisy), !noisy) == Bucket(t, !noisy)
    ensures forall id :: id in t && t[id] != noisy ==> (Recent(Trimmed(t, noisy), id) <==> Recent(t, id))
  {
    assert Bucket(Trimmed(t, noisy), !noisy) == Bucket(t, !noisy);
  }

  /** A prune leaves each bucket exactly its newest rows up to its own cap. */
  lemma PruneKeepsTheNewest(t: Table, id: nat)
    requires id in t
    ensures id in Trimmed(Trimmed(t, true), false) <==> Recent(t, id)
    ensures id in Trimmed(Trimmed(t, true), false) ==> Trimmed(Trimmed(t, true), false)[id] == t[id]
  {
    BucketsAreIndependent(t, true);
  }

  /** Two tables that agree on a bucket keep the same rows of it, whatever the other bucket holds. */
  lemma OtherBucketDoesNotMatter(t: Table, u: Table, noisy: bool, id: nat)
    requires Bucket(t, noisy) == Bucket(u, noisy) && id in Bucket(t, noisy)
    ensures id in Trimmed(Trimmed(t, true), false) <==> id in Trimmed(Trimmed(u, true), false)
  {
    PruneKeepsTheNewest(t, id);
    PruneKeepsTheNewest(u, id);
  }

  lemma {:induction false} OldestOf(ids: set<nat>) returns (m: nat)
    requires ids != {}
    ensures m in ids && forall k :: k in ids ==> k >= m
  {
    m :| m in ids;
    if ids - {m} != {} {
      var k := OldestOf(ids - {m});
      assert forall j :: j in ids ==> j == m || j in ids - {m};
      m := if k < m then k else m;
    } else {
      assert forall j :: j in ids ==> j == m || j in ids - {m};
    }
  }

  /** No more than `keep` rows have fewer than `keep` newer ones. */
  lemma {:induction false} RankBelow(ids: set<nat>, keep: nat)
    ensures |set id | id in ids && |Newer(ids, id)| < keep| <= keep
  {
    var kept := set id | id in ids && |Newer(ids, id)| < keep;
    if kept != {} {
      var m := OldestOf(kept);
      SubsetSize(kept - {m}, Newer(ids, m));
    }
  }

  /** Neither bucket is left with more rows than its cap. */
  lemma BucketsFit(t: Table, noisy: bool)
    ensures |Bucket(Trimmed(Trimmed(t, true), false), noisy)| <= Cap(noisy)
  {
    var ids := Bucket(t, noisy);
    var left := Bucket(Trimmed(Trimmed(t, true), false), noisy);
    var kept := set id | id in ids && |Newer(ids, id)| < Cap(noisy);
    forall id | id in left ensures id in kept {
      PruneKeepsTheNewest(t, id);
    }
    RankBelow(ids, Cap(noisy));
    SubsetSize(left, kept);
  }
}
