/**
 The per-namespace storage quota: the SDK's PUT (`portal/api.py`), the app-tool `store`
 (`portal/app_tools.py`), the user wipe (`portal/storage_backend.py`), and the SDK's DELETE, which takes no lock.

 Writers hold their namespace's lock while they list, stat, check and write; each of those is a step of
 its own here, and deletes may fall between any two. Which lock a namespace uses is a parameter
 (`lockOf`): a lock file per namespace locally, a pair of 32-bit numbers, which may collide, on PostgreSQL.
 */
module StorageQuota {
  import opened Basics

  const MAX_OBJECT_BYTES := 10 * 1024 * 1024
  const MAX_NAMESPACE_BYTES := 100 * 1024 * 1024
  const MAX_NAMESPACE_OBJECTS := 10_000

  /** A namespace's objects: size by key. */
  type Objects = map<string, nat>

  ghost function Total(m: Objects): nat
    decreases |m|
  {
    if m == map[] then 0 else
    var k :| k in m;
    assert (m - {k}).Keys == m.Keys - {k};
    m[k] + Total(m - {k})
  }

  ghost predicate SubMap(a: Objects, b: Objects) {
    forall k :: k in a ==> k in b && a[k] == b[k]
  }

  lemma {:induction false} TotalWithout(m: Objects, k: string)
    requires k in m
    ensures Total(m) == m[k] + Total(m - {k})
    decreases |m|
  {
    var j :| j in m && Total(m) == m[j] + Total(m - {j});
    assert (m - {j}).Keys == m.Keys - {j};
    assert (m - {k}).Keys == m.Keys - {k};
    if j != k {
      TotalWithout(m - {j}, k);
      TotalWithout(m - {k}, j);
      assert m - {j} - {k} == m - {k} - {j};
    }
  }

  lemma {:induction false} TotalGrows(a: Objects, b: Objects)
    requires SubMap(a, b)
    ensures Total(a) <= Total(b) && |a| <= |b|
    decreases |a|
  {
    if a == map[] {
    } else {
      var k :| k in a;
      TotalWithout(a, k);
      TotalWithout(b, k);
      assert (a - {k}).Keys == a.Keys - {k} && (b - {k}).Keys == b.Keys - {k};
      TotalGrows(a - {k}, b - {k});
    }
  }

  lemma TotalUpdated(m: Objects, k: string, size: nat)
    ensures Total(m[k := size]) == Total(m - {k}) + size
    ensures |m[k := size]| == |m - {k}| + 1
  {
    var m' := m[k := size];
    TotalWithout(m', k);
    assert m' - {k} == m - {k};
    assert (m' - {k}).Keys == m'.Keys - {k};
  }

  // ----- the protocol -----

  /** Where a lock-holding thread is; `objects` and `existing` are what it read. */
  datatype Op =
    | PutLocked(ns: nat, key: string, size: nat)
    | PutListed(ns: nat, key: string, size: nat, objects: Objects)
    | PutSized(ns: nat, key: string, size: nat, objects: Objects, existing: Option<nat>)
    | StoreLocked(ns: nat, key: string, size: nat)
    | StoreSized(ns: nat, key: string, size: nat, prior: nat)
    | StoreListed(ns: nat, key: string, size: nat, prior: nat, objects: Objects)
    | WipeLocked(ns: nat)

  datatype State = State(spaces: map<nat, Objects>, locks: map<nat, nat>, threads: map<nat, Op>)

  datatype Action =
    | StartPut(th: nat, ns: nat, key: string, size: nat)
    | StartStore(th: nat, ns: nat, key: string, size: nat)
    | StartWipe(th: nat, ns: nat)
    | ReadFirst(th: nat)
    | ReadSecond(th: nat)
    | Finish(th: nat, fault: bool)
    | WipeOne(th: nat, key: string)
    | Delete(ns: nat, key: string)

  function At(s: State, ns: nat): Objects {
    if ns in s.spaces then s.spaces[ns] else map[]
  }

  function With(s: State, ns: nat, m: Objects): State {
    s.(spaces := s.spaces[ns := m])
  }

  /** Block until the lock is free: while it is not, or the thread is busy, nothing happens. */
  function Lock(lockOf: nat -> nat, s: State, th: nat, op: Op): State {
    if th in s.threads || lockOf(op.ns) in s.locks then s
    else s.(locks := s.locks[lockOf(op.ns) := th], threads := s.threads[th := op])
  }

  function Unlock(lockOf: nat -> nat, s: State, th: nat): State
    requires th in s.threads
  {
    s.(locks := s.locks - {lockOf(s.threads[th].ns)}, threads := s.threads - {th})
  }

  /** The PUT's two refusals (507): one object too many, or too many bytes once the old value is gone. */
  ghost predicate PutFits(op: Op)
    requires op.PutSized?
  {
    var prior := match op.existing case None => 0 case Some(n) => n;
    && !(op.existing.None? && |op.objects| >= MAX_NAMESPACE_OBJECTS)
    && Total(op.objects) - prior + op.size <= MAX_NAMESPACE_BYTES
  }

  ghost predicate StoreFits(op: Op)
    requires op.StoreListed?
  {
    Total(op.objects) - op.prior + op.size <= MAX_NAMESPACE_BYTES
  }

  ghost predicate Writes(op: Op, fault: bool) {
    && !fault
    && ((op.PutSized? && PutFits(op)) || (op.StoreListed? && StoreFits(op)))
  }

  ghost function Apply(lockOf: nat -> nat, s: State, a: Action): State {
    match a
    case StartPut(th, ns, key, size) =>
      if size > MAX_OBJECT_BYTES then s else Lock(lockOf, s, th, PutLocked(ns, key, size))
    case StartStore(th, ns, key, size) =>
      if size > MAX_OBJECT_BYTES then s else Lock(lockOf, s, th, StoreLocked(ns, key, size))
    case StartWipe(th, ns) => Lock(lockOf, s, th, WipeLocked(ns))
    case ReadFirst(th) =>
      if th !in s.threads then s else
      (match s.threads[th]
       case PutLocked(ns, key, size) => s.(threads := s.threads[th := PutListed(ns, key, size, At(s, ns))])
       case StoreLocked(ns, key, size) =>
         s.(threads := s.threads[th := StoreSized(ns, key, size, if key in At(s, ns) then At(s, ns)[key] else 0)])
       case _ => s)
    case ReadSecond(th) =>
      if th !in s.threads then s else
      (match s.threads[th]
       case PutListed(ns, key, size, objects) =>
         var existing := if key in At(s, ns) then Some(At(s, ns)[key]) else None;
         s.(threads := s.threads[th := PutSized(ns, key, size, objects, existing)])
       case StoreSized(ns, key, size, prior) =>
         s.(threads := s.threads[th := StoreListed(ns, key, size, prior, At(s, ns))])
       case _ => s)
    case Finish(th, fault) =>
      if th !in s.threads then s else
      var op := s.threads[th];
      if Writes(op, fault) then With(Unlock(lockOf, s, th), op.ns, At(s, op.ns)[op.key := op.size])
      else Unlock(lockOf, s, th)
    case WipeOne(th, key) =>
      if th in s.threads && s.threads[th].WipeLocked? then
        With(s, s.threads[th].ns, At(s, s.threads[th].ns) - {key})
      else s
    case Delete(ns, key) => With(s, ns, At(s, ns) - {key})
  }

  ghost function Run(lockOf: nat -> nat, s: State, acts: seq<Action>): State {
    if acts == [] then s else Apply(lockOf, Run(lockOf, s, acts[..|acts| - 1]), acts[|acts| - 1])
  }

  // ----- what the locks and the snapshots guarantee -----

  ghost predicate Exclusive(lockOf: nat -> nat, s: State) {
    forall th :: th in s.threads ==>
                   lockOf(s.threads[th].ns) in s.locks && s.locks[lockOf(s.threads[th].ns)] == th
  }

  /** What a thread read is an upper bound for what is there now: only deletes can have happened since. */
  ghost predicate Sound(s: State, op: Op) {
    match op
    case PutListed(ns, _, _, objects) => SubMap(At(s, ns), objects) && Total(objects) <= MAX_NAMESPACE_BYTES
    case PutSized(ns, key, _, objects, existing) =>
      && SubMap(At(s, ns), objects) && Total(objects) <= MAX_NAMESPACE_BYTES
      && (existing.Some? ==> key in objects && objects[key] == existing.value)
      && (existing.None? ==> key !in At(s, ns))
    case StoreSized(ns, key, _, prior) => prior > 0 ==> key in At(s, ns) && At(s, ns)[key] == prior
    case StoreListed(ns, key, _, prior, objects) =>
      SubMap(At(s, ns), objects) && (prior > 0 ==> key in objects && objects[key] == prior)
    case _ => true
  }

  /** A delete that falls between a store's `size` and `usage` reads, and takes the object the first one saw. */
  ghost predicate SplitsStore(s: State, a: Action) {
    a.Delete? && exists th :: th in s.threads && s.threads[th].StoreSized?
                              && s.threads[th].ns == a.ns && s.threads[th].key == a.key && s.threads[th].prior > 0
  }

  ghost predicate BytesBounded(s: State) {
    forall ns :: Total(At(s, ns)) <= MAX_NAMESPACE_BYTES
  }

  ghost predicate Good(lockOf: nat -> nat, s: State) {
    && Exclusive(lockOf, s) && BytesBounded(s)
    && forall th :: th in s.threads ==> Sound(s, s.threads[th])
  }

  lemma TotalRemoved(listed: Objects, key: string)
    ensures Total(listed - {key}) == Total(listed) - if key in listed then listed[key] else 0
  {
    if key in listed {
      TotalWithout(listed, key);
    } else {
      assert listed - {key} == listed;
    }
  }

  /** Replacing the object under one key of a namespace that has only shrunk since it was listed. */
  lemma ReplacedTotal(now: Objects, listed: Objects, key: string, size: nat)
    requires SubMap(now, listed)
    ensures Total(now[key := size]) <= Total(listed) - (if key in listed then listed[key] else 0) + size
  {
    TotalUpdated(now, key, size);
    TotalGrows(now - {key}, listed - {key});
    TotalRemoved(listed, key);
  }

  /** The decisive step: a write that passed its check keeps the namespace within its bytes. */
  lemma WriteKeepsBytes(s: State, op: Op)
    requires Sound(s, op) && Writes(op, false)
    ensures Total(At(s, op.ns)[op.key := op.size]) <= MAX_NAMESPACE_BYTES
  {
    ReplacedTotal(At(s, op.ns), op.objects, op.key, op.size);
  }

  lemma ExclusiveStep(lockOf: nat -> nat, s: State, a: Action)
    requires Exclusive(lockOf, s)
    ensures Exclusive(lockOf, Apply(lockOf, s, a))
  {
  }

  lemma BytesStep(lockOf: nat -> nat, s: State, a: Action)
    requires Good(lockOf, s)
    ensures BytesBounded(Apply(lockOf, s, a))
  {
    var s' := Apply(lockOf, s, a);
    forall ns
      ensures Total(At(s', ns)) <= MAX_NAMESPACE_BYTES
    {
      if a.Finish? && a.th in s.threads && Writes(s.threads[a.th], a.fault) && s.threads[a.th].ns == ns {
        WriteKeepsBytes(s, s.threads[a.th]);
      } else {
        assert SubMap(At(s', ns), At(s, ns));
        TotalGrows(At(s', ns), At(s, ns));
      }
    }
  }

  /** Another thread's step only removes objects from this thread's namespace. */
  lemma OthersOnlyDelete(lockOf: nat -> nat, s: State, a: Action, th: nat)
    requires Exclusive(lockOf, s) && th in s.threads
    requires !(a.Finish? && a.th == th)
    ensures SubMap(At(Apply(lockOf, s, a), s.threads[th].ns), At(s, s.threads[th].ns))
    ensures !a.Delete? && !(a.WipeOne? && a.th == th) ==>
              At(Apply(lockOf, s, a), s.threads[th].ns) == At(s, s.threads[th].ns)
  {
  }

  lemma StillSound(s: State, s': State, op: Op)
    requires Sound(s, op) && SubMap(At(s', op.ns), At(s, op.ns))
    requires op.StoreSized? && op.prior > 0 ==> op.key in At(s', op.ns)
    ensures Sound(s', op)
  {
  }

  /** Reading under the lock starts, or completes, a sound snapshot. */
  lemma ReadingIsSound(lockOf: nat -> nat, s: State, a: Action)
    requires Good(lockOf, s) && (a.ReadFirst? || a.ReadSecond?) && a.th in s.threads
    ensures Sound(Apply(lockOf, s, a), Apply(lockOf, s, a).threads[a.th])
  {
    assert Sound(s, s.threads[a.th]);
    assert SubMap(At(s, s.threads[a.th].ns), At(s, s.threads[a.th].ns));
  }

  lemma SoundStep(lockOf: nat -> nat, s: State, a: Action, th: nat)
    requires Good(lockOf, s) && !SplitsStore(s, a)
    requires th in Apply(lockOf, s, a).threads
    ensures Sound(Apply(lockOf, s, a), Apply(lockOf, s, a).threads[th])
  {
    if th in s.threads {
      if (a.ReadFirst? || a.ReadSecond?) && a.th == th {
        ReadingIsSound(lockOf, s, a);
      } else {
        OthersOnlyDelete(lockOf, s, a, th);
        StillSound(s, Apply(lockOf, s, a), s.threads[th]);
      }
    }
  }

  lemma GoodStep(lockOf: nat -> nat, s: State, a: Action)
    requires Good(lockOf, s) && !SplitsStore(s, a)
    ensures Good(lockOf, Apply(lockOf, s, a))
  {
    ExclusiveStep(lockOf, s, a);
    BytesStep(lockOf, s, a);
    forall th | th in Apply(lockOf, s, a).threads
      ensures Sound(Apply(lockOf, s, a), Apply(lockOf, s, a).threads[th])
    {
      SoundStep(lockOf, s, a, th);
    }
  }

  // ----- theorems over whole runs -----

  ghost predicate NeverSplits(lockOf: nat -> nat, s: State, acts: seq<Action>) {
    forall i :: 0 <= i < |acts| ==> !SplitsStore(Run(lockOf, s, acts[..i]), acts[i])
  }

  lemma {:induction false} GoodRun(lockOf: nat -> nat, s: State, acts: seq<Action>)
    requires Good(lockOf, s) && NeverSplits(lockOf, s, acts)
    ensures Good(lockOf, Run(lockOf, s, acts))
  {
    if acts != [] {
      var before := acts[..|acts| - 1];
      forall i | 0 <= i < |before|
        ensures !SplitsStore(Run(lockOf, s, before[..i]), before[i])
      {
        assert before[..i] == acts[..i];
      }
      GoodRun(lockOf, s, before);
      GoodStep(lockOf, Run(lockOf, s, before), acts[|acts| - 1]);
    }
  }

  /**
   Every namespace stays within its bytes at every point of every interleaving of any number of puts,
   stores, wipes and lock-free deletes, whatever locks the namespaces share, as long as no delete
   takes an object between the two reads of a store to the same key.
   */
  lemma BytesStayBounded(lockOf: nat -> nat, s: State, acts: seq<Action>, ns: nat)
    requires s.threads == map[] && s.locks == map[] && forall n :: Total(At(s, n)) <= MAX_NAMESPACE_BYTES
    requires NeverSplits(lockOf, s, acts)
    ensures Total(At(Run(lockOf, s, acts), ns)) <= MAX_NAMESPACE_BYTES
  {
    GoodRun(lockOf, s, acts);
  }

  // Without stores there is no hypothesis, and the object count is bounded too.

  ghost predicate NoStores(acts: seq<Action>) {
    forall i :: 0 <= i < |acts| ==> !acts[i].StartStore?
  }

  ghost predicate Counted(s: State, op: Op) {
    match op
    case PutListed(_, _, _, objects) => |objects| <= MAX_NAMESPACE_OBJECTS
    case PutSized(_, _, _, objects, _) => |objects| <= MAX_NAMESPACE_OBJECTS
    case StoreLocked(_, _, _) => false
    case StoreSized(_, _, _, _) => false
    case StoreListed(_, _, _, _, _) => false
    case _ => true
  }

  ghost predicate CountBounded(s: State) {
    && (forall ns :: |At(s, ns)| <= MAX_NAMESPACE_OBJECTS)
    && (forall th :: th in s.threads ==> Counted(s, s.threads[th]))
  }

  lemma WriteKeepsCount(s: State, op: Op)
    requires Sound(s, op) && Counted(s, op) && Writes(op, false)
    ensures |At(s, op.ns)[op.key := op.size]| <= MAX_NAMESPACE_OBJECTS
  {
    var now := At(s, op.ns);
    TotalUpdated(now, op.key, op.size);
    TotalGrows(now - {op.key}, op.objects - {op.key});
    TotalGrows(now - {op.key}, op.objects);
    assert (op.objects - {op.key}).Keys == op.objects.Keys - {op.key};
  }

  lemma CountOf(lockOf: nat -> nat, s: State, a: Action, ns: nat)
    requires Good(lockOf, s) && CountBounded(s)
    ensures |At(Apply(lockOf, s, a), ns)| <= MAX_NAMESPACE_OBJECTS
  {
    if a.Finish? && a.th in s.threads && Writes(s.threads[a.th], a.fault) && s.threads[a.th].ns == ns {
      assert Sound(s, s.threads[a.th]) && Counted(s, s.threads[a.th]);
      WriteKeepsCount(s, s.threads[a.th]);
    } else {
      TotalGrows(At(Apply(lockOf, s, a), ns), At(s, ns));
    }
  }

  lemma CountedThread(lockOf: nat -> nat, s: State, a: Action, th: nat)
    requires CountBounded(s) && !a.StartStore? && th in Apply(lockOf, s, a).threads
    ensures Counted(Apply(lockOf, s, a), Apply(lockOf, s, a).threads[th])
  {
    assert th in s.threads ==> Counted(s, s.threads[th]);
  }

  lemma CountStep(lockOf: nat -> nat, s: State, a: Action)
    requires Good(lockOf, s) && CountBounded(s) && !a.StartStore?
    ensures CountBounded(Apply(lockOf, s, a)) && !SplitsStore(s, a)
  {
    forall th | th in s.threads
      ensures !s.threads[th].StoreSized?
    {
      assert Counted(s, s.threads[th]);
    }
    forall ns ensures |At(Apply(lockOf, s, a), ns)| <= MAX_NAMESPACE_OBJECTS {
      CountOf(lockOf, s, a, ns);
    }
    forall th | th in Apply(lockOf, s, a).threads
      ensures Counted(Apply(lockOf, s, a), Apply(lockOf, s, a).threads[th])
    {
      CountedThread(lockOf, s, a, th);
    }
  }

  lemma {:induction false} CapsRun(lockOf: nat -> nat, s: State, acts: seq<Action>)
    requires Good(lockOf, s) && CountBounded(s) && NoStores(acts)
    ensures Good(lockOf, Run(lockOf, s, acts)) && CountBounded(Run(lockOf, s, acts))
  {
    if acts != [] {
      var before, a := acts[..|acts| - 1], acts[|acts| - 1];
      CapsRun(lockOf, s, before);
      CountStep(lockOf, Run(lockOf, s, before), a);
      GoodStep(lockOf, Run(lockOf, s, before), a);
    }
  }

  /** Puts, wipes and deletes alone keep both caps, under every interleaving and without any hypothesis. */
  lemma PutsKeepBothCaps(lockOf: nat -> nat, s: State, acts: seq<Action>, ns: nat)
    requires s.threads == map[] && s.locks == map[] && NoStores(acts)
    requires forall n :: Total(At(s, n)) <= MAX_NAMESPACE_BYTES && |At(s, n)| <= MAX_NAMESPACE_OBJECTS
    ensures var end := At(Run(lockOf, s, acts), ns);
            Total(end) <= MAX_NAMESPACE_BYTES && |end| <= MAX_NAMESPACE_OBJECTS
  {
    CapsRun(lockOf, s, acts);
  }

  // ----- one request, and where the store path falls short -----

  datatype Refusal = Accepted | TooManyObjects | TooManyBytes | Oversize

  /** What a PUT does to a namespace that nobody else touches meanwhile. */
  ghost function PutOutcome(m: Objects, key: string, size: nat): Refusal {
    if size > MAX_OBJECT_BYTES then Oversize
    else if key !in m && |m| >= MAX_NAMESPACE_OBJECTS then TooManyObjects
    else if Total(m) - (if key in m then m[key] else 0) + size > MAX_NAMESPACE_BYTES then TooManyBytes
    else Accepted
  }

  lemma RunFour(lockOf: nat -> nat, s: State, acts: seq<Action>)
    requires |acts| == 4
    ensures Run(lockOf, s, acts) ==
            Apply(lockOf, Apply(lockOf, Apply(lockOf, Apply(lockOf, s, acts[0]), acts[1]), acts[2]), acts[3])
  {
    assert acts[..1][..0] == [] && acts[..2][..1] == acts[..1] && acts[..3][..2] == acts[..2];
    assert Run(lockOf, s, acts[..1]) == Apply(lockOf, s, acts[0]);
    assert Run(lockOf, s, acts[..2]) == Apply(lockOf, Run(lockOf, s, acts[..1]), acts[1]);
    assert Run(lockOf, s, acts[..3]) == Apply(lockOf, Run(lockOf, s, acts[..2]), acts[2]);
  }

  function PutSteps(th: nat, ns: nat, key: string, size: nat): seq<Action> {
    [StartPut(th, ns, key, size), ReadFirst(th), ReadSecond(th), Finish(th, false)]
  }

  function StoreSteps(th: nat, ns: nat, key: string, size: nat): seq<Action> {
    [StartStore(th, ns, key, size), ReadFirst(th), ReadSecond(th), Finish(th, false)]
  }

  /** A lock taken in a state without threads. */
  lemma LockFree(lockOf: nat -> nat, s: State, th: nat, op: Op)
    requires s.threads == map[] && s.locks == map[]
    ensures Lock(lockOf, s, th, op) == State(s.spaces, map[lockOf(op.ns) := th], map[th := op])
  {
  }

  lemma FinishOnly(lockOf: nat -> nat, spaces: map<nat, Objects>, th: nat, op: Op)
    ensures Apply(lockOf, State(spaces, map[lockOf(op.ns) := th], map[th := op]), Finish(th, false)) ==
            var s := State(spaces, map[], map[]);
            if Writes(op, false) then With(s, op.ns, At(s, op.ns)[op.key := op.size]) else s
  {
    var s := State(spaces, map[lockOf(op.ns) := th], map[th := op]);
    assert s.locks - {lockOf(op.ns)} == map[] && s.threads - {th} == map[];
  }

  /** The two reads of an undisturbed PUT. */
  lemma PutReads(lockOf: nat -> nat, s: State, th: nat, ns: nat, key: string, size: nat)
    requires s.threads == map[] && s.locks == map[]
    ensures var m := At(s, ns);
            var held := map[lockOf(ns) := th];
            var s1 := State(s.spaces, held, map[th := PutLocked(ns, key, size)]);
            Apply(lockOf, Apply(lockOf, s1, ReadFirst(th)), ReadSecond(th)) ==
            State(s.spaces, held, map[th := PutSized(ns, key, size, m, if key in m then Some(m[key]) else None)])
  {
    var m := At(s, ns);
    var held := map[lockOf(ns) := th];
    var s1 := State(s.spaces, held, map[th := PutLocked(ns, key, size)]);
    var s2 := State(s.spaces, held, map[th := PutListed(ns, key, size, m)]);
    assert Apply(lockOf, s1, ReadFirst(th)) == s2;
    assert s2.threads[th := PutSized(ns, key, size, m, if key in m then Some(m[key]) else None)] ==
           map[th := PutSized(ns, key, size, m, if key in m then Some(m[key]) else None)];
  }

  /** The four steps of an undisturbed PUT. */
  lemma PutRun(lockOf: nat -> nat, s: State, th: nat, ns: nat, key: string, size: nat)
    requires s.threads == map[] && s.locks == map[] && size <= MAX_OBJECT_BYTES
    ensures var m := At(s, ns);
            var op := PutSized(ns, key, size, m, if key in m then Some(m[key]) else None);
            Run(lockOf, s, PutSteps(th, ns, key, size)) ==
            if PutFits(op) then With(s, ns, m[key := size]) else s
  {
    var m := At(s, ns);
    var op := PutSized(ns, key, size, m, if key in m then Some(m[key]) else None);
    RunFour(lockOf, s, PutSteps(th, ns, key, size));
    LockFree(lockOf, s, th, PutLocked(ns, key, size));
    PutReads(lockOf, s, th, ns, key, size);
    FinishOnly(lockOf, s.spaces, th, op);
    assert State(s.spaces, map[], map[]) == s;
  }

  lemma Replacing(m: Objects, key: string, size: nat)
    ensures Total(m[key := size]) == Total(m) - (if key in m then m[key] else 0) + size
    ensures |m[key := size]| == |m| + if key in m then 0 else 1
  {
    TotalUpdated(m, key, size);
    if key in m {
      TotalWithout(m, key);
      assert m[key := size].Keys == m.Keys;
    } else {
      assert m - {key} == m;
    }
  }

  /**
   An undisturbed PUT stores the object exactly when both caps hold afterwards; refused, it leaves everything as
   it was.
   */
  lemma PutInIsolation(lockOf: nat -> nat, s: State, th: nat, ns: nat, key: string, size: nat)
    requires s.threads == map[] && s.locks == map[] && |At(s, ns)| <= MAX_NAMESPACE_OBJECTS
    ensures var m := At(s, ns);
            Run(lockOf, s, PutSteps(th, ns, key, size)) ==
            if size <= MAX_OBJECT_BYTES && |m[key := size]| <= MAX_NAMESPACE_OBJECTS
               && Total(m[key := size]) <= MAX_NAMESPACE_BYTES
            then With(s, ns, m[key := size]) else s
  {
    if size <= MAX_OBJECT_BYTES {
      PutRun(lockOf, s, th, ns, key, size);
      Replacing(At(s, ns), key, size);
    } else {
      RunFour(lockOf, s, PutSteps(th, ns, key, size));
    }
  }

  /** Which refusal a PUT gets, in terms of the namespace it asks for. */
  lemma RefusedFor(m: Objects, key: string, size: nat)
    requires |m| <= MAX_NAMESPACE_OBJECTS
    ensures PutOutcome(m, key, size) ==
            if size > 10 * 1024 * 1024 then Oversize
            else if |m[key := size]| > 10_000 then TooManyObjects
            else if Total(m[key := size]) > 100 * 1024 * 1024 then TooManyBytes
            else Accepted
  {
    Replacing(m, key, size);
  }

  /** Namespaces lie side by side. */
  lemma SpacesAreApart(s: State, ns: nat, m: Objects, n: nat)
    ensures At(With(s, ns, m), n) == if n == ns then m else At(s, n)
    ensures n in s.spaces ==> At(s, n) == s.spaces[n]
  {
  }

  /** The step writes an object: a thread that has checked finishes, and its write does not fail. */
  ghost predicate Puts(s: State, a: Action, ns: nat, key: string) {
    && a.Finish? && !a.fault && a.th in s.threads
    && var op := s.threads[a.th];
       && op.ns == ns
       && ((op.PutSized? && PutFits(op) && op.key == key) || (op.StoreListed? && StoreFits(op) && op.key == key))
  }

  /** The step deletes an object: a DELETE, or the wipe of its namespace. */
  predicate Removes(s: State, a: Action, ns: nat, key: string) {
    || a == Delete(ns, key)
    || (a.WipeOne? && a.key == key && a.th in s.threads && s.threads[a.th] == WipeLocked(ns))
  }

  /** One object through one step: written, deleted, or untouched. */
  lemma ObjectAfter(lockOf: nat -> nat, s: State, a: Action, ns: nat, key: string)
    ensures var now := At(Apply(lockOf, s, a), ns);
            if Puts(s, a, ns, key) then key in now && now[key] == s.threads[a.th].size
            else if Removes(s, a, ns, key) then key !in now
            else (key in now <==> key in At(s, ns)) && (key in now ==> now[key] == At(s, ns)[key])
  {
  }

  /** However it ends, a thread that finishes gives its lock back and is gone. */
  lemma FinishReleases(lockOf: nat -> nat, s: State, th: nat, fault: bool)
    requires th in s.threads
    ensures var s' := Apply(lockOf, s, Finish(th, fault));
            s'.locks == s.locks - {lockOf(s.threads[th].ns)} && s'.threads == s.threads - {th}
  {
  }

  function Wipes(th: nat, keys: seq<string>): seq<Action> {
    if keys == [] then [] else Wipes(th, keys[..|keys| - 1]) + [WipeOne(th, keys[|keys| - 1])]
  }

  lemma RunMore(lockOf: nat -> nat, s: State, acts: seq<Action>, a: Action)
    ensures Run(lockOf, s, acts + [a]) == Apply(lockOf, Run(lockOf, s, acts), a)
  {
    assert (acts + [a])[..|acts|] == acts;
  }

  lemma WipeOneRemoves(lockOf: nat -> nat, s: State, th: nat, ns: nat, key: string)
    requires th in s.threads && s.threads[th] == WipeLocked(ns)
    ensures var end := Apply(lockOf, s, WipeOne(th, key));
            && end.locks == s.locks && end.threads == s.threads
            && (forall k :: k in At(end, ns) <==> k in At(s, ns) && k != key)
            && (forall n :: n != ns ==> At(end, n) == At(s, n))
  {
  }

  /** A wipe under way takes the objects it comes to and touches no other namespace. */
  lemma {:induction false} WipesRemove(lockOf: nat -> nat, s: State, th: nat, ns: nat, keys: seq<string>)
    requires th in s.threads && s.threads[th] == WipeLocked(ns)
    ensures var end := Run(lockOf, s, Wipes(th, keys));
            && end.locks == s.locks && end.threads == s.threads
            && (forall k :: k in At(end, ns) <==> k in At(s, ns) && k !in keys)
            && (forall n :: n != ns ==> At(end, n) == At(s, n))
  {
    if keys != [] {
      var rest, last := keys[..|keys| - 1], keys[|keys| - 1];
      WipesRemove(lockOf, s, th, ns, rest);
      RunMore(lockOf, s, Wipes(th, rest), WipeOne(th, last));
      WipeOneRemoves(lockOf, Run(lockOf, s, Wipes(th, rest)), th, ns, last);
      assert keys == rest + [last];
    }
  }

  lemma {:induction false} RunAppend(lockOf: nat -> nat, s: State, before: seq<Action>, after: seq<Action>)
    ensures Run(lockOf, s, before + after) == Run(lockOf, Run(lockOf, s, before), after)
  {
    if after == [] {
      assert before + after == before;
    } else {
      RunAppend(lockOf, s, before, after[..|after| - 1]);
      assert (before + after)[..|before + after| - 1] == before + after[..|after| - 1];
    }
  }

  lemma WipeStarts(lockOf: nat -> nat, s: State, th: nat, ns: nat)
    requires s.threads == map[] && s.locks == map[]
    ensures Run(lockOf, s, [StartWipe(th, ns)]) == State(s.spaces, map[lockOf(ns) := th], map[th := WipeLocked(ns)])
  {
    RunMore(lockOf, s, [], StartWipe(th, ns));
    assert [] + [StartWipe(th, ns)] == [StartWipe(th, ns)];
    LockFree(lockOf, s, th, WipeLocked(ns));
  }

  /** With nobody beside it, a wipe that comes to every object leaves the namespace empty and all others alone. */
  lemma WipeInIsolation(lockOf: nat -> nat, s: State, th: nat, ns: nat, keys: seq<string>)
    requires s.threads == map[] && s.locks == map[] && forall k :: k in At(s, ns) ==> k in keys
    ensures var end := Run(lockOf, s, [StartWipe(th, ns)] + Wipes(th, keys) + [Finish(th, false)]);
            && end.threads == map[] && end.locks == map[]
            && At(end, ns) == map[] && forall n :: n != ns ==> At(end, n) == At(s, n)
  {
    var wiping := [StartWipe(th, ns)] + Wipes(th, keys);
    WipeStarts(lockOf, s, th, ns);
    WipesRemove(lockOf, Run(lockOf, s, [StartWipe(th, ns)]), th, ns, keys);
    RunAppend(lockOf, s, [StartWipe(th, ns)], Wipes(th, keys));
    RunMore(lockOf, s, wiping, Finish(th, false));
    var last := Run(lockOf, s, wiping);
    assert last == State(last.spaces, map[lockOf(ns) := th], map[th := WipeLocked(ns)]);
    FinishOnly(lockOf, last.spaces, th, WipeLocked(ns));
    var end := Run(lockOf, s, wiping + [Finish(th, false)]);
    assert end == State(last.spaces, map[], map[]);
    assert forall n :: At(end, n) == At(last, n);
    assert At(last, ns) == map[];
  }

  /** The two reads of an undisturbed store. */
  lemma StoreReads(lockOf: nat -> nat, s: State, th: nat, ns: nat, key: string, size: nat)
    requires s.threads == map[] && s.locks == map[]
    ensures var m := At(s, ns);
            var held := map[lockOf(ns) := th];
            var prior := if key in m then m[key] else 0;
            var s1 := State(s.spaces, held, map[th := StoreLocked(ns, key, size)]);
            Apply(lockOf, Apply(lockOf, s1, ReadFirst(th)), ReadSecond(th)) ==
            State(s.spaces, held, map[th := StoreListed(ns, key, size, prior, m)])
  {
    var m := At(s, ns);
    var held := map[lockOf(ns) := th];
    var prior := if key in m then m[key] else 0;
    var s1 := State(s.spaces, held, map[th := StoreLocked(ns, key, size)]);
    var s2 := State(s.spaces, held, map[th := StoreSized(ns, key, size, prior)]);
    assert Apply(lockOf, s1, ReadFirst(th)) == s2;
  }

  /** An undisturbed store writes the object, a new one or over an old one, exactly when the bytes fit afterwards. */
  lemma StoreInIsolation(lockOf: nat -> nat, s: State, th: nat, ns: nat, key: string, size: nat)
    requires s.threads == map[] && s.locks == map[]
    ensures var m := At(s, ns);
            Run(lockOf, s, StoreSteps(th, ns, key, size)) ==
            if size <= MAX_OBJECT_BYTES && Total(m[key := size]) <= MAX_NAMESPACE_BYTES
            then With(s, ns, m[key := size]) else s
  {
    var m := At(s, ns);
    var prior := if key in m then m[key] else 0;
    RunFour(lockOf, s, StoreSteps(th, ns, key, size));
    if size <= MAX_OBJECT_BYTES {
      LockFree(lockOf, s, th, StoreLocked(ns, key, size));
      StoreReads(lockOf, s, th, ns, key, size);
      FinishOnly(lockOf, s.spaces, th, StoreListed(ns, key, size, prior, m));
      Replacing(m, key, size);
    }
  }

  /** So it has no object cap: a full namespace that has the bytes to spare gets one object more. */
  lemma StoreIgnoresObjectCap(lockOf: nat -> nat, s: State, th: nat, ns: nat, key: string, size: nat)
    requires s.threads == map[] && s.locks == map[] && |At(s, ns)| == MAX_NAMESPACE_OBJECTS && key !in At(s, ns)
    requires size <= MAX_OBJECT_BYTES
    ensures |At(Run(lockOf, s, StoreSteps(th, ns, key, size)), ns)| > MAX_NAMESPACE_OBJECTS <==>
            Total(At(s, ns)) + size <= MAX_NAMESPACE_BYTES
  {
    StoreInIsolation(lockOf, s, th, ns, key, size);
    Replacing(At(s, ns), key, size);
  }

  function SplitSteps(th: nat, ns: nat, key: string, size: nat): seq<Action> {
    [StartStore(th, ns, key, size), ReadFirst(th), Delete(ns, key), ReadSecond(th), Finish(th, false)]
  }

  lemma RunFive(lockOf: nat -> nat, s: State, acts: seq<Action>)
    requires |acts| == 5
    ensures Run(lockOf, s, acts) ==
            var s2 := Apply(lockOf, Apply(lockOf, s, acts[0]), acts[1]);
            Apply(lockOf, Apply(lockOf, Apply(lockOf, s2, acts[2]), acts[3]), acts[4])
  {
    RunFour(lockOf, s, acts[..4]);
  }

  /** A store's two reads with the delete of its key in between. */
  lemma SplitReads(lockOf: nat -> nat, s: State, th: nat, ns: nat, key: string, size: nat)
    requires s.threads == map[] && s.locks == map[] && key in At(s, ns)
    ensures var m := At(s, ns);
            var held := map[lockOf(ns) := th];
            var s1 := State(s.spaces, held, map[th := StoreLocked(ns, key, size)]);
            Apply(lockOf, Apply(lockOf, Apply(lockOf, s1, ReadFirst(th)), Delete(ns, key)), ReadSecond(th)) ==
            State(s.spaces[ns := m - {key}], held, map[th := StoreListed(ns, key, size, m[key], m - {key})])
  {
    var m := At(s, ns);
    var held := map[lockOf(ns) := th];
    var s1 := State(s.spaces, held, map[th := StoreLocked(ns, key, size)]);
    var s3 := State(s.spaces[ns := m - {key}], held, map[th := StoreSized(ns, key, size, m[key])]);
    assert Apply(lockOf, s1, ReadFirst(th)) == s3.(spaces := s.spaces);
    assert Apply(lockOf, s3.(spaces := s.spaces), Delete(ns, key)) == s3;
  }

  lemma SplitRun(lockOf: nat -> nat, s: State, th: nat, ns: nat, key: string, size: nat)
    requires s.threads == map[] && s.locks == map[] && key in At(s, ns) && size <= MAX_OBJECT_BYTES
    ensures var m := At(s, ns);
            At(Run(lockOf, s, SplitSteps(th, ns, key, size)), ns) ==
            if Total(m - {key}) - m[key] + size <= MAX_NAMESPACE_BYTES then (m - {key})[key := size] else m - {key}
  {
    var m := At(s, ns);
    RunFive(lockOf, s, SplitSteps(th, ns, key, size));
    LockFree(lockOf, s, th, StoreLocked(ns, key, size));
    SplitReads(lockOf, s, th, ns, key, size);
    FinishOnly(lockOf, s.spaces[ns := m - {key}], th, StoreListed(ns, key, size, m[key], m - {key}));
  }

  /**
   Why the hypothesis is there. When a delete takes the object of `n` bytes between a store's two
   reads, its size is subtracted twice, and the namespace ends above its cap exactly when the true new total is
   over the cap by no more than those `n` bytes.
   */
  lemma SplitStoreOverflowsIff(lockOf: nat -> nat, s: State, th: nat, ns: nat, key: string, size: nat)
    requires s.threads == map[] && s.locks == map[] && key in At(s, ns) && size <= MAX_OBJECT_BYTES
    requires Total(At(s, ns)) <= MAX_NAMESPACE_BYTES
    ensures var m := At(s, ns);
            Total(At(Run(lockOf, s, SplitSteps(th, ns, key, size)), ns)) > MAX_NAMESPACE_BYTES <==>
            MAX_NAMESPACE_BYTES < Total(m) - m[key] + size <= MAX_NAMESPACE_BYTES + m[key]
  {
    var m := At(s, ns);
    SplitRun(lockOf, s, th, ns, key, size);
    TotalWithout(m, key);
    TotalUpdated(m - {key}, key, size);
    assert m - {key} - {key} == m - {key};
    TotalGrows(m - {key}, m);
  }

  // ----- the handlers themselves, on one namespace -----

  class Namespace {
    var objects: Objects

    constructor ()
      ensures objects == map[]
    {
      objects := map[];
    }

    /** `StorageBackend.usage`: a sum over the listing. */
    method Usage() returns (bytes: nat)
      ensures bytes == Total(objects)
    {
      bytes := 0;
      var left := objects;
      while left != map[]
        invariant SubMap(left, objects) && bytes + Total(left) == Total(objects)
        decreases |left|
      {
        var k :| k in left;
        TotalWithout(left, k);
        assert (left - {k}).Keys == left.Keys - {k};
        bytes := bytes + left[k];
        left := left - {k};
      }
    }

    /** `storage_put` with its body read: `_guarded_write` under the lock. */
    method Put(key: string, size: nat) returns (r: Refusal)
      modifies this
      ensures r == PutOutcome(old(objects), key, size)
      ensures objects == if r.Accepted? then old(objects)[key := size] else old(objects)
    {
      if size > MAX_OBJECT_BYTES {
        return Oversize;
      }
      var bytes := Usage();
      if key !in objects && |objects| >= MAX_NAMESPACE_OBJECTS {
        return TooManyObjects;
      }
      var prior := if key in objects then objects[key] else 0;
      if bytes - prior + size > MAX_NAMESPACE_BYTES {
        return TooManyBytes;
      }
      objects := objects[key := size];
      return Accepted;
    }

    /** `storage_delete`; False is the handler's 404. A `blind` store (S3) does not say whether the key was there. */
    method Delete(key: string, blind: bool) returns (existed: bool)
      modifies this
      ensures existed <==> blind || key in old(objects)
      ensures objects == old(objects) - {key}
    {
      existed := blind || key in objects;
      objects := objects - {key};
    }
  }
}
