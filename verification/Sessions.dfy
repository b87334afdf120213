/**
 `portal/sessions.py`: a session row whose `last_seen_at` is written lazily.

 A request loads the row, judges it against the clock, reads the clock again to touch it, and commits the
 new time only if the loaded one is more than a minute old. Any number of requests on one session may
 be anywhere between these steps. Times are whole microseconds. `settled` and `lastUse` are bookkeeping of
 the model: the latest use among the requests that are done, and among all. No step decides anything by them.
 */
module Sessions {

  const SECOND := 1_000_000
  const REFRESH := 60 * SECOND
  const ABSOLUTE_MAX_AGE := 30 * 24 * 3600 * SECOND

  /** A request in flight. `at` is when it loaded the row, `snap` the last-seen time it loaded. */
  datatype Request =
    | Loaded(at: int, snap: int, revoked: bool, settled: int)
    | Admitted(at: int, snap: int)
    | Writing(at: int, used: int)

  datatype State = State(
    created: int, stored: int, revoked: bool, clock: int,
    settled: int, lastUse: int, requests: map<nat, Request>)

  datatype Action = Tick(now: int) | Load(th: nat) | Judge(th: nat) | Stamp(th: nat) | Commit(th: nat) | Revoke

  /** `_expired`; `idle` is the configured `session_max_age`. */
  predicate Expired(created: int, seen: int, now: int, idle: int) {
    now - created > ABSOLUTE_MAX_AGE || now - seen > idle
  }

  /** `touch_session` writes. */
  predicate Stale(seen: int, now: int) {
    now - seen > REFRESH
  }

  function Max(a: int, b: int): int {
    if a >= b then a else b
  }

  function Done(s: State, th: nat): State {
    s.(requests := s.requests - {th})
  }

  /** The row as `create_session` leaves it. */
  function Created(now: int): State {
    State(now, now, false, now, now, now, map[])
  }

  predicate Admits(s: State, r: Request, idle: int)
    requires r.Loaded?
  {
    !r.revoked && !Expired(s.created, r.snap, s.clock, idle)
  }

  function Apply(idle: int, s: State, a: Action): State {
    match a
    case Tick(now) => if now >= s.clock then s.(clock := now) else s
    case Load(th) =>
      if th !in s.requests then
        s.(requests := s.requests[th := Loaded(s.clock, s.stored, s.revoked, s.settled)])
      else s
    case Judge(th) =>
      if th in s.requests && s.requests[th].Loaded? then
        var r := s.requests[th];
        if Admits(s, r, idle) then s.(requests := s.requests[th := Admitted(r.at, r.snap)]) else Done(s, th)
      else s
    case Stamp(th) =>
      if th in s.requests && s.requests[th].Admitted? then
        var r := s.requests[th];
        var used := s.(lastUse := Max(s.lastUse, s.clock));
        if Stale(r.snap, s.clock) then used.(requests := s.requests[th := Writing(r.at, s.clock)])
        else Done(used.(settled := Max(s.settled, s.clock)), th)
      else s
    case Commit(th) =>
      if th in s.requests && s.requests[th].Writing? then
        var r := s.requests[th];
        Done(s.(stored := r.used, settled := Max(s.settled, r.used)), th)
      else s
    case Revoke => s.(revoked := true)
  }

  function Run(idle: int, s: State, acts: seq<Action>): State {
    if acts == [] then s else Apply(idle, Run(idle, s, acts[..|acts| - 1]), acts[|acts| - 1])
  }

  /** No request has been in flight for longer than `delay`. */
  ghost predicate Prompt(s: State, delay: nat) {
    forall th :: th in s.requests ==> s.clock <= s.requests[th].at + delay
  }

  ghost predicate PromptRun(idle: int, s: State, acts: seq<Action>, delay: nat) {
    forall i :: 0 <= i <= |acts| ==> Prompt(Run(idle, s, acts[..i]), delay)
  }

  /** Requests are done within `delay` if none is older at the start, nor after any of the steps. */
  lemma PromptMore(idle: int, s: State, acts: seq<Action>, a: Action, delay: nat)
    ensures PromptRun(idle, s, [], delay) <==> forall th :: th in s.requests ==> s.clock - s.requests[th].at <= delay
    ensures PromptRun(idle, s, acts + [a], delay) <==>
            var end := Run(idle, s, acts + [a]);
            && PromptRun(idle, s, acts, delay)
            && forall th :: th in end.requests ==> end.clock - end.requests[th].at <= delay
  {
    var none: seq<Action>, more := [], acts + [a];
    assert none[..0] == [];
    assert PromptRun(idle, s, none, delay) ==> Prompt(Run(idle, s, none[..0]), delay);
    assert more[..|more|] == more;
    forall i | 0 <= i <= |acts| ensures more[..i] == acts[..i] {}
    if PromptRun(idle, s, more, delay) {
      assert Prompt(Run(idle, s, more[..|more|]), delay);
      forall i | 0 <= i <= |acts| ensures Prompt(Run(idle, s, acts[..i]), delay) {
        assert more[..i] == acts[..i];
      }
    }
  }

  // ----- how far the stored time may trail -----

  function Trail(delay: nat): int {
    Max(REFRESH, 2 * delay)
  }

  /** What a request in flight knows about the row. */
  ghost predicate RequestSound(s: State, r: Request, delay: nat) {
    && r.at <= s.clock <= r.at + delay
    && match r
       case Loaded(at, snap, _, settled) =>
         snap <= s.lastUse && (s.stored == snap || s.stored >= at - delay) && settled - snap <= Trail(delay)
       case Admitted(at, snap) => s.stored == snap || s.stored >= at - delay
       case Writing(at, used) => at <= used <= s.lastUse
  }

  ghost predicate AllSound(s: State, delay: nat) {
    forall th :: th in s.requests ==> RequestSound(s, s.requests[th], delay)
  }

  /** A use that is not settled yet belongs to a request about to commit it. */
  ghost predicate UsesAccounted(s: State) {
    s.lastUse > s.settled ==>
      exists th :: th in s.requests && s.requests[th].Writing? && s.requests[th].used == s.lastUse
  }

  ghost predicate Good(s: State, delay: nat) {
    && s.created <= s.stored <= s.lastUse <= s.clock && s.settled <= s.lastUse
    && s.settled - s.stored <= Trail(delay)
    && AllSound(s, delay)
  }

  lemma StampKeepsGood(idle: int, s: State, th: nat, delay: nat)
    requires Good(s, delay) && th in s.requests && s.requests[th].Admitted?
    ensures Good(Apply(idle, s, Stamp(th)), delay)
  {
    var s' := Apply(idle, s, Stamp(th));
    assert RequestSound(s, s.requests[th], delay);
    forall k | k in s'.requests ensures RequestSound(s', s'.requests[k], delay) {
      assert k == th || RequestSound(s, s.requests[k], delay);
    }
  }

  lemma CommitKeepsGood(idle: int, s: State, th: nat, delay: nat)
    requires Good(s, delay)
    requires th in s.requests && s.requests[th].Writing? && s.created <= s.requests[th].at
    ensures Good(Apply(idle, s, Commit(th)), delay)
  {
    var s' := Apply(idle, s, Commit(th));
    assert RequestSound(s, s.requests[th], delay);
    forall k | k in s'.requests ensures RequestSound(s', s'.requests[k], delay) {
      assert RequestSound(s, s.requests[k], delay);
    }
  }

  ghost predicate LoadedAfterCreation(s: State) {
    s.created <= s.clock && forall th :: th in s.requests ==> s.created <= s.requests[th].at
  }

  /** A step that neither stamps nor commits. */
  lemma QuietStepKeepsGood(idle: int, s: State, a: Action, delay: nat)
    requires Good(s, delay) && Prompt(Apply(idle, s, a), delay)
    requires !a.Stamp? && !a.Commit?
    ensures Good(Apply(idle, s, a), delay)
  {
    var s' := Apply(idle, s, a);
    forall k | k in s'.requests ensures RequestSound(s', s'.requests[k], delay) {
      if k in s.requests {
        assert RequestSound(s, s.requests[k], delay);
      }
    }
  }

  lemma GoodStep(idle: int, s: State, a: Action, delay: nat)
    requires Good(s, delay) && LoadedAfterCreation(s) && Prompt(Apply(idle, s, a), delay)
    ensures Good(Apply(idle, s, a), delay) && LoadedAfterCreation(Apply(idle, s, a))
  {
    var s' := Apply(idle, s, a);
    if a.Stamp? && a.th in s.requests && s.requests[a.th].Admitted? {
      StampKeepsGood(idle, s, a.th, delay);
    } else if a.Commit? && a.th in s.requests && s.requests[a.th].Writing? {
      CommitKeepsGood(idle, s, a.th, delay);
    } else if !a.Stamp? && !a.Commit? {
      QuietStepKeepsGood(idle, s, a, delay);
    }
  }

  lemma AccountedStep(idle: int, s: State, a: Action)
    requires UsesAccounted(s) && s.lastUse <= s.clock
    ensures UsesAccounted(Apply(idle, s, a))
  {
    var s' := Apply(idle, s, a);
    if s'.lastUse > s'.settled {
      if a.Stamp? && s' != s {
        assert a.th in s'.requests && s'.requests[a.th].Writing? && s'.requests[a.th].used == s'.lastUse;
      } else {
        var k :| k in s.requests && s.requests[k].Writing? && s.requests[k].used == s.lastUse;
        assert k in s'.requests && s'.requests[k] == s.requests[k];
      }
    }
  }

  lemma {:induction false} GoodRun(idle: int, born: int, acts: seq<Action>, delay: nat)
    requires PromptRun(idle, Created(born), acts, delay)
    ensures var s := Run(idle, Created(born), acts);
            Good(s, delay) && LoadedAfterCreation(s) && UsesAccounted(s) && s.created == born
  {
    if acts != [] {
      var before := acts[..|acts| - 1];
      forall i | 0 <= i <= |before| ensures Prompt(Run(idle, Created(born), before[..i]), delay) {
        assert before[..i] == acts[..i];
      }
      assert acts[..|acts|] == acts;
      GoodRun(idle, born, before, delay);
      GoodStep(idle, Run(idle, Created(born), before), acts[|acts| - 1], delay);
      AccountedStep(idle, Run(idle, Created(born), before), acts[|acts| - 1]);
    }
  }

  /**
   If every request is done within `delay`, the stored time never runs ahead of the true last use, and
   never trails a finished use by more than a minute or twice the delay. Between requests that is every use.
   */
  lemma StoredTrailsTheTruth(idle: int, born: int, acts: seq<Action>, delay: nat)
    requires PromptRun(idle, Created(born), acts, delay)
    ensures var s := Run(idle, Created(born), acts);
            var trail := if delay <= 30_000_000 then 60_000_000 else 2 * delay;
            && s.stored <= s.lastUse && s.settled - s.stored <= trail
            && (s.requests == map[] ==> 0 <= s.lastUse - s.stored <= trail)
  {
    GoodRun(idle, born, acts, delay);
  }

  /** Every time the row ever held, or a request loaded or will write, is that of a real use. */
  ghost predicate TimesAreReal(s: State) {
    && s.stored <= s.lastUse
    && forall th :: th in s.requests ==>
                      match s.requests[th]
                      case Loaded(_, snap, _, _) => snap <= s.lastUse
                      case Admitted(_, _) => true
                      case Writing(_, used) => used <= s.lastUse
  }

  lemma {:induction false} TimesStayReal(idle: int, born: int, acts: seq<Action>)
    ensures TimesAreReal(Run(idle, Created(born), acts)) && Run(idle, Created(born), acts).created == born
  {
    if acts != [] {
      TimesStayReal(idle, born, acts[..|acts| - 1]);
    }
  }

  /**
   However long requests take, an admitted session was truly used within the idle limit, and is at most 30 days
   old.
   */
  lemma AdmittedWasUsed(idle: int, born: int, acts: seq<Action>, th: nat)
    requires var s := Run(idle, Created(born), acts);
             th in s.requests && s.requests[th].Loaded? && Admits(s, s.requests[th], idle)
    ensures var s := Run(idle, Created(born), acts);
            s.clock - s.lastUse <= idle && s.clock - born <= ABSOLUTE_MAX_AGE
  {
    TimesStayReal(idle, born, acts);
  }

  /**
   A session refused for idleness had seen no finished use, when the request came in, for the limit less the
   trail.
   */
  lemma RefusedWasIdle(idle: int, born: int, acts: seq<Action>, delay: nat, th: nat)
    requires PromptRun(idle, Created(born), acts, delay)
    requires var s := Run(idle, Created(born), acts);
             && th in s.requests && s.requests[th].Loaded? && !s.requests[th].revoked
             && !Admits(s, s.requests[th], idle) && s.clock - born <= ABSOLUTE_MAX_AGE
    ensures var s := Run(idle, Created(born), acts);
            s.clock - s.requests[th].settled > idle - Trail(delay)
  {
    GoodRun(idle, born, acts, delay);
    var s := Run(idle, Created(born), acts);
    assert RequestSound(s, s.requests[th], delay);
  }

  // ----- the minute is exact for requests done within 30 seconds -----

  /** Request 0 stamps early and commits late, over request 1's newer time, just after request 2 loaded that. */
  function LateCommit(born: int, delay: nat): seq<Action> {
    var first := born + REFRESH + 1;
    [Tick(first), Load(0), Load(1), Judge(0), Stamp(0), Judge(1), Tick(first + delay), Stamp(1), Commit(1),
     Load(2), Commit(0), Judge(2), Tick(first + 2 * delay), Stamp(2)]
  }

  /** The state after the first `i` of those steps. */
  function LateState(born: int, delay: nat, i: nat): State
    requires i <= 14
  {
    var t := born + REFRESH + 1;
    var early, late := Loaded(t, born, false, born), Loaded(t + delay, t + delay, false, t + delay);
    match i
    case 0 => Created(born)
    case 1 => State(born, born, false, t, born, born, map[])
    case 2 => State(born, born, false, t, born, born, map[0 := early])
    case 3 => State(born, born, false, t, born, born, map[0 := early, 1 := early])
    case 4 => State(born, born, false, t, born, born, map[0 := Admitted(t, born), 1 := early])
    case 5 => State(born, born, false, t, born, t, map[0 := Writing(t, t), 1 := early])
    case 6 => State(born, born, false, t, born, t, map[0 := Writing(t, t), 1 := Admitted(t, born)])
    case 7 => State(born, born, false, t + delay, born, t, map[0 := Writing(t, t), 1 := Admitted(t, born)])
    case 8 => State(born, born, false, t + delay, born, t + delay, map[0 := Writing(t, t), 1 := Writing(t, t + delay)])
    case 9 => State(born, t + delay, false, t + delay, t + delay, t + delay, map[0 := Writing(t, t)])
    case 10 => State(born, t + delay, false, t + delay, t + delay, t + delay, map[0 := Writing(t, t), 2 := late])
    case 11 => State(born, t, false, t + delay, t + delay, t + delay, map[2 := late])
    case 12 => State(born, t, false, t + delay, t + delay, t + delay, map[2 := Admitted(t + delay, t + delay)])
    case 13 => State(born, t, false, t + 2 * delay, t + delay, t + delay, map[2 := Admitted(t + delay, t + delay)])
    case 14 => State(born, t, false, t + 2 * delay, t + 2 * delay, t + 2 * delay, map[])
  }

  lemma EarlySteps(idle: int, born: int, delay: nat, i: nat)
    requires i < 6 && idle > REFRESH && delay <= REFRESH
    ensures Apply(idle, LateState(born, delay, i), LateCommit(born, delay)[i]) == LateState(born, delay, i + 1)
  {
  }

  lemma MiddleSteps(idle: int, born: int, delay: nat, i: nat)
    requires 6 <= i < 10 && idle > REFRESH && delay <= REFRESH
    ensures Apply(idle, LateState(born, delay, i), LateCommit(born, delay)[i]) == LateState(born, delay, i + 1)
  {
  }

  lemma LateSteps(idle: int, born: int, delay: nat, i: nat)
    requires 10 <= i < 14 && idle > REFRESH && delay <= REFRESH
    ensures Apply(idle, LateState(born, delay, i), LateCommit(born, delay)[i]) == LateState(born, delay, i + 1)
  {
  }

  lemma {:induction false} LateRun(idle: int, born: int, delay: nat, i: nat)
    requires i <= 14 && idle > REFRESH && delay <= REFRESH
    ensures Run(idle, Created(born), LateCommit(born, delay)[..i]) == LateState(born, delay, i)
    ensures Prompt(LateState(born, delay, i), delay)
  {
    if i > 0 {
      LateRun(idle, born, delay, i - 1);
      if i - 1 < 6 {
        EarlySteps(idle, born, delay, i - 1);
      } else if i - 1 < 10 {
        MiddleSteps(idle, born, delay, i - 1);
      } else {
        LateSteps(idle, born, delay, i - 1);
      }
      assert LateCommit(born, delay)[..i][..i - 1] == LateCommit(born, delay)[..i - 1];
    }
  }

  /**
   The promised minute holds in every run exactly when requests are done within 30 seconds of loading the
   row. A slower one can commit an old time over a newer, which a third request then relies on.
   */
  lemma TrailIsAMinuteIff(idle: int, delay: nat)
    requires idle > REFRESH
    ensures (forall born, acts :: PromptRun(idle, Created(born), acts, delay) ==>
                                    var s := Run(idle, Created(born), acts);
                                    s.requests == map[] ==> s.lastUse - s.stored <= 60_000_000)
            <==> delay <= 30_000_000
  {
    if 2 * delay <= REFRESH {
      forall born, acts | PromptRun(idle, Created(born), acts, delay)
                          && Run(idle, Created(born), acts).requests == map[]
        ensures Run(idle, Created(born), acts).lastUse - Run(idle, Created(born), acts).stored <= REFRESH
      {
        StoredTrailsTheTruth(idle, born, acts, delay);
      }
    } else {
      var d := if delay <= REFRESH then delay else REFRESH;
      var acts := LateCommit(0, d);
      forall i | 0 <= i <= |acts| ensures Prompt(Run(idle, Created(0), acts[..i]), delay) {
        LateRun(idle, 0, d, i);
      }
      LateRun(idle, 0, d, 14);
      assert acts[..14] == acts;
      assert PromptRun(idle, Created(0), acts, delay) && Run(idle, Created(0), acts).requests == map[];
    }
  }

  // ----- revocation -----

  /** Nobody is at `th`, or a request that has loaded the revoked row. */
  predicate Shut(s: State, th: nat) {
    th in s.requests ==> s.requests[th].Loaded? && s.requests[th].revoked
  }

  lemma {:induction false} ShutStays(idle: int, s: State, acts: seq<Action>, th: nat)
    requires s.revoked && Shut(s, th)
    ensures Run(idle, s, acts).revoked && Shut(Run(idle, s, acts), th)
  {
    if acts != [] {
      ShutStays(idle, s, acts[..|acts| - 1], th);
    }
  }

  lemma {:induction false} MarkStays(idle: int, s: State, acts: seq<Action>)
    requires s.revoked
    ensures Run(idle, s, acts).revoked
  {
    if acts != [] {
      MarkStays(idle, s, acts[..|acts| - 1]);
    }
  }

  /**
   Revoking is final: from any state, whatever requests under way are still doing, the mark is set and stays, and
   wherever nobody was at the time no request is ever admitted.
   */
  lemma RevokedIsFinal(idle: int, s: State, acts: seq<Action>, th: nat)
    ensures Run(idle, Apply(idle, s, Revoke), acts).revoked
    ensures th !in s.requests ==> Shut(Run(idle, Apply(idle, s, Revoke), acts), th)
  {
    if th !in s.requests {
      ShutStays(idle, Apply(idle, s, Revoke), acts, th);
    }
    MarkStays(idle, Apply(idle, s, Revoke), acts);
  }

  /** After the run a request at `th` has been let in. */
  predicate AdmittedAfter(idle: int, s: State, acts: seq<Action>, th: nat) {
    var end := Run(idle, s, acts); th in end.requests && !end.requests[th].Loaded?
  }

  /** The request has loaded the row and can only be turned away. */
  predicate Refusable(idle: int, s: State, th: nat) {
    th in s.requests ==> s.requests[th].Loaded? && !Admits(s, s.requests[th], idle)
  }

  lemma RefusableStep(idle: int, s: State, a: Action, th: nat)
    requires s.revoked && Refusable(idle, s, th)
    ensures Apply(idle, s, a).revoked && Refusable(idle, Apply(idle, s, a), th)
  {
  }

  lemma {:induction false} RefusableStays(idle: int, s: State, acts: seq<Action>, th: nat)
    requires s.revoked && Refusable(idle, s, th)
    ensures Run(idle, s, acts).revoked && Refusable(idle, Run(idle, s, acts), th)
  {
    if acts != [] {
      RefusableStays(idle, s, acts[..|acts| - 1], th);
      RefusableStep(idle, Run(idle, s, acts[..|acts| - 1]), acts[|acts| - 1], th);
    }
  }

  /** Nobody is admitted to a revoked row at `th`, now or later, if and only if who is there can only be turned away. */
  lemma NeverAdmittedIff(idle: int, s: State, th: nat)
    requires s.revoked
    ensures (forall acts :: !AdmittedAfter(idle, s, acts, th)) <==> Refusable(idle, s, th)
  {
    if Refusable(idle, s, th) {
      forall acts ensures !AdmittedAfter(idle, s, acts, th) {
        RefusableStays(idle, s, acts, th);
      }
    } else if s.requests[th].Loaded? {
      var acts := [Judge(th)];
      assert acts[..0] == [] && Run(idle, s, acts) == Apply(idle, s, Judge(th));
      assert AdmittedAfter(idle, s, acts, th);
    } else {
      assert AdmittedAfter(idle, s, [], th);
    }
  }

  /** With nobody admitted, the row rests as it is. */
  lemma {:induction false} RevokedRowRests(idle: int, s: State, acts: seq<Action>)
    requires s.revoked && forall th :: th in s.requests ==> Shut(s, th)
    ensures var end := Run(idle, s, acts);
            && end.stored == s.stored && end.lastUse == s.lastUse
            && forall th :: th in end.requests ==> Shut(end, th)
  {
    if acts != [] {
      var before := acts[..|acts| - 1];
      RevokedRowRests(idle, s, before);
      forall th ensures Shut(Run(idle, s, before), th) {}
      forall th ensures Shut(s, th) {}
      forall th ensures Run(idle, s, acts).revoked && Shut(Run(idle, s, acts), th) {
        ShutStays(idle, s, acts, th);
      }
    }
  }

  // ----- one request at a time -----

  /** What each step of a request asks for, whatever has happened since the one before, and what it leaves. */
  lemma OwnStepIs(idle: int, s: State, th: nat)
    requires th in s.requests
    ensures match s.requests[th]
            case Loaded(at, snap, revoked, _) =>
              var after := Apply(idle, s, Judge(th));
              && (th in after.requests <==>
                  !revoked && s.clock - s.created <= 2_592_000_000_000 && s.clock - snap <= idle)
              && (th in after.requests ==> after.requests[th] == Admitted(at, snap))
            case Admitted(at, snap) =>
              var after := Apply(idle, s, Stamp(th));
              && (th in after.requests <==> s.clock - snap > 60_000_000)
              && (th in after.requests ==> after.requests[th] == Writing(at, s.clock))
              && after.lastUse == if s.clock > s.lastUse then s.clock else s.lastUse
            case Writing(_, used) =>
              Apply(idle, s, Commit(th)).stored == used && th !in Apply(idle, s, Commit(th)).requests
  {
  }

  /** A request is moved by its own steps alone; one that comes loads the row as it is. */
  lemma RequestsAreApart(idle: int, s: State, a: Action, th: nat)
    ensures !((a.Load? || a.Judge? || a.Stamp? || a.Commit?) && a.th == th) ==>
              var after := Apply(idle, s, a).requests;
              && (th in after <==> th in s.requests) && (th in after ==> after[th] == s.requests[th])
    ensures a.Load? && a.th == th && th !in s.requests ==>
              th in Apply(idle, s, a).requests
              && Apply(idle, s, a).requests[th] == Loaded(s.clock, s.stored, s.revoked, s.settled)
  {
  }

  /** The row and the clock move by nothing but a commit, a revocation and time. */
  lemma RowMovesBy(idle: int, s: State, a: Action)
    ensures Apply(idle, s, a).created == s.created
    ensures Apply(idle, s, a).revoked <==> s.revoked || a.Revoke?
    ensures Apply(idle, s, a).clock == if a.Tick? && a.now > s.clock then a.now else s.clock
    ensures !(a.Commit? && a.th in s.requests && s.requests[a.th].Writing?) ==> Apply(idle, s, a).stored == s.stored
  {
  }

  /** A request whose steps come in a row: whom it admits, and when it writes. */
  lemma UndisturbedRequest(idle: int, s: State, th: nat)
    requires th !in s.requests
    ensures var admitted :=
              !s.revoked && s.clock - s.created <= 2_592_000_000_000 && s.clock - s.stored <= idle;
            var judged := Apply(idle, Apply(idle, s, Load(th)), Judge(th));
            var end := Apply(idle, Apply(idle, judged, Stamp(th)), Commit(th));
            && (th in judged.requests <==> admitted) && end.requests == s.requests
            && end.stored == if admitted && s.clock - s.stored > 60_000_000 then s.clock else s.stored
  {
    var loaded := s.requests[th := Loaded(s.clock, s.stored, s.revoked, s.settled)];
    assert loaded - {th} == s.requests;
    assert loaded[th := Admitted(s.clock, s.stored)] - {th} == s.requests;
    assert loaded[th := Admitted(s.clock, s.stored)][th := Writing(s.clock, s.clock)] - {th} == s.requests;
  }

  lemma RunFour(idle: int, s: State, acts: seq<Action>)
    requires |acts| == 4
    ensures Run(idle, s, acts) ==
            Apply(idle, Apply(idle, Apply(idle, Apply(idle, s, acts[0]), acts[1]), acts[2]), acts[3])
  {
    assert acts[..1][..0] == [] && acts[..2][..1] == acts[..1] && acts[..3][..2] == acts[..2];
    assert Run(idle, s, acts[..1]) == Apply(idle, s, acts[0]);
    assert Run(idle, s, acts[..2]) == Apply(idle, Run(idle, s, acts[..1]), acts[1]);
    assert Run(idle, s, acts[..3]) == Apply(idle, Run(idle, s, acts[..2]), acts[2]);
  }

  /** A `UserSession` or `AppSession` row. */
  class SessionRow {
    const createdAt: int
    var lastSeenAt: int
    var revoked: bool

    constructor (now: int)
      ensures (createdAt, lastSeenAt, revoked) == (now, now, false)
    {
      createdAt, lastSeenAt, revoked := now, now, false;
    }

    function Value(now: int): State
      reads this
    {
      State(createdAt, lastSeenAt, revoked, now, lastSeenAt, lastSeenAt, map[])
    }

    method Touch(now: int)
      modifies this`lastSeenAt
      ensures lastSeenAt == if Stale(old(lastSeenAt), now) then now else old(lastSeenAt)
    {
      if Stale(lastSeenAt, now) {
        lastSeenAt := now;
      }
    }

    /** `get_active_session` and `touch_session` with nothing in between: the four steps in a row. */
    method Authenticate(now: int, idle: int) returns (ok: bool)
      modifies this`lastSeenAt
      ensures ok <==> !revoked && now - createdAt <= ABSOLUTE_MAX_AGE && now - old(lastSeenAt) <= idle
      ensures lastSeenAt == Run(idle, old(Value(now)), [Load(0), Judge(0), Stamp(0), Commit(0)]).stored
    {
      RunFour(idle, Value(now), [Load(0), Judge(0), Stamp(0), Commit(0)]);
      ok := !revoked && !Expired(createdAt, lastSeenAt, now, idle);
      if ok {
        Touch(now);
      }
    }
  }
}
