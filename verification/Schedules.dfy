/**
 `portal/scheduler.py` and the schedule toggle of `portal/admin.py`: rows that carry a stored
 `next_run_at`, a ticker that fires the due ones, manual runs and pausing.

 The class is the table row as committed. `Step` is one event seen by one row: a pass of the ticker selects the
 enabled rows at its start, comes to the row later, and commits the run later still, so toggles and manual
 runs fall in between. The theorems at the end replace the stored `next_run_at` by a rule without it: a
 selected schedule fires exactly when its cadence has an occurrence since it was last looked at.
 */
module Schedules {
  import opened Calendar
  import opened NextRuns

  const RESULT_MAX := 300

  /** What running the tool came to: `status` is "ok" or "error". */
  datatype Outcome = Outcome(status: string, result: string)

  datatype LastRun = Never | Ran(at: DateTime, status: string, result: string)

  /** A row's value. */
  datatype Row = Row(cadence: Cadence, enabled: bool, nextRun: DateTime, lastRun: LastRun)

  function Truncated(s: string): string {
    if |s| <= RESULT_MAX then s else s[..RESULT_MAX]
  }

  /** The stored time has passed. */
  predicate Passed(r: Row, now: DateTime) {
    AtMost(r.nextRun, now)
  }

  predicate Due(r: Row, now: DateTime) {
    r.enabled && Passed(r, now)
  }

  /** `_run_one`; a next run that cannot be computed raises before the commit and leaves the row as it was. */
  function RunOnce(r: Row, now: DateTime, advance: bool, out: Outcome): Row
    requires ValidDateTime(now)
  {
    var ran := r.(lastRun := Ran(now, out.status, Truncated(out.result)));
    if !advance then ran else
    match ComputeNextRun(r.cadence, now)
    case Next(at) => ran.(nextRun := at)
    case _ => r
  }

  predicate Raises(r: Row, now: DateTime)
    requires ValidDateTime(now)
  {
    !ComputeNextRun(r.cadence, now).Next?
  }

  /** `schedules_toggle`. */
  function Toggled(r: Row, now: DateTime): Row
    requires ValidDateTime(now)
  {
    if r.enabled then r.(enabled := false) else
    match ComputeNextRun(r.cadence, now)
    case Next(at) => r.(enabled := true, nextRun := at)
    case _ => r
  }

  /** `_do_set_schedule_enabled`: enabling recomputes the next run even if the row was enabled. */
  function Set(r: Row, on: bool, now: DateTime): Row
    requires ValidDateTime(now)
  {
    if !on then r.(enabled := false) else
    match ComputeNextRun(r.cadence, now)
    case Next(at) => r.(enabled := true, nextRun := at)
    case _ => r
  }

  /** The pass comes to a row; `chosen` says whether the SELECT at its start took it. */
  function Visited(r: Row, chosen: bool, now: DateTime, out: Outcome): Row
    requires ValidDateTime(now)
  {
    if chosen && Passed(r, now) then RunOnce(r, now, true, out) else r
  }

  /** One row's part in an undisturbed pass. */
  function TickRow(r: Row, now: DateTime, out: Outcome): Row
    requires ValidDateTime(now)
  {
    Visited(r, r.enabled, now, out)
  }

  class ScheduledRun {
    const cadence: Cadence
    var enabled: bool
    var nextRunAt: DateTime
    var lastRun: LastRun

    function Value(): Row
      reads this
    {
      Row(cadence, enabled, nextRunAt, lastRun)
    }

    constructor (cadence: Cadence, first: DateTime)
      ensures Value() == Row(cadence, true, first, Never)
    {
      this.cadence := cadence;
      enabled := true;
      nextRunAt := first;
      lastRun := Never;
    }

    method RunOne(now: DateTime, advance: bool, out: Outcome) returns (raised: bool)
      requires ValidDateTime(now)
      modifies this
      ensures raised == (advance && Raises(old(Value()), now))
      ensures Value() == RunOnce(old(Value()), now, advance, out)
    {
      raised := false;
      var next := nextRunAt;
      if advance {
        var computed := ComputeNextRun(cadence, now);
        if !computed.Next? {
          return true;
        }
        next := computed.at;
      }
      lastRun := Ran(now, out.status, Truncated(out.result));
      nextRunAt := next;
    }

    method Toggle(now: DateTime)
      requires ValidDateTime(now)
      modifies this
      ensures Value() == Toggled(old(Value()), now)
    {
      if enabled {
        enabled := false;
      } else {
        var computed := ComputeNextRun(cadence, now);
        if computed.Next? {
          enabled, nextRunAt := true, computed.at;
        }
      }
    }

    method SetEnabled(on: bool, now: DateTime)
      requires ValidDateTime(now)
      modifies this
      ensures Value() == Set(old(Value()), on, now)
    {
      if on {
        var computed := ComputeNextRun(cadence, now);
        if computed.Next? {
          enabled, nextRunAt := true, computed.at;
        }
      } else {
        enabled := false;
      }
    }
  }

  ghost predicate Distinct(rows: seq<ScheduledRun>) {
    forall i, j :: 0 <= i < j < |rows| ==> rows[i] != rows[j]
  }

  function CountDue(rows: seq<Row>, now: DateTime): nat {
    if rows == [] then 0
    else CountDue(rows[..|rows| - 1], now) + if Due(rows[|rows| - 1], now) then 1 else 0
  }

  /** The first `n` rows have a next run, as far as they are due. */
  ghost predicate NoneRaised(vs: seq<Row>, now: DateTime, n: nat)
    requires n <= |vs| && ValidDateTime(now)
  {
    forall i :: 0 <= i < n && Due(vs[i], now) ==> !Raises(vs[i], now)
  }

  lemma OneMoreVisited(vs: seq<Row>, i: nat, now: DateTime)
    requires i < |vs| && ValidDateTime(now) && NoneRaised(vs, now, i) && !(Due(vs[i], now) && Raises(vs[i], now))
    ensures NoneRaised(vs, now, i + 1)
    ensures CountDue(vs[..i + 1], now) == CountDue(vs[..i], now) + if Due(vs[i], now) then 1 else 0
  {
    assert vs[..i + 1][..i] == vs[..i];
  }

  ghost predicate Hold(rows: seq<ScheduledRun>, vs: seq<Row>)
    reads rows
  {
    |vs| == |rows| && forall i :: 0 <= i < |rows| ==> rows[i].Value() == vs[i]
  }

  /** The pass so far: rows before `done` have seen the tick. */
  function AfterPass(vs: seq<Row>, now: DateTime, outs: seq<Outcome>, done: nat): (ws: seq<Row>)
    requires done <= |vs| == |outs| && ValidDateTime(now)
    ensures |ws| == |vs|
    ensures forall i :: 0 <= i < |vs| ==> ws[i] == if i < done then TickRow(vs[i], now, outs[i]) else vs[i]
  {
    if done == 0 then vs
    else AfterPass(vs, now, outs, done - 1)[done - 1 := TickRow(vs[done - 1], now, outs[done - 1])]
  }

  /** The pass comes to one of its rows. */
  method VisitRow(rows: seq<ScheduledRun>, i: nat, chosen: bool, now: DateTime, out: Outcome, ghost ws: seq<Row>)
    returns (fired: bool, raised: bool)
    requires Distinct(rows) && Hold(rows, ws) && i < |rows| && ValidDateTime(now)
    modifies rows[i]
    ensures fired == (chosen && Passed(ws[i], now)) && raised == (fired && Raises(ws[i], now))
    ensures Hold(rows, if raised then ws else ws[i := Visited(ws[i], chosen, now, out)])
  {
    fired, raised := chosen && Passed(rows[i].Value(), now), false;
    if fired {
      raised := rows[i].RunOne(now, true, out);
    }
  }

  /** The pass has come to the first `i` rows and goes on to the next. */
  method VisitNext(rows: seq<ScheduledRun>, i: nat, chosen: bool, now: DateTime, outs: seq<Outcome>, ghost vs: seq<Row>)
    returns (fired: bool, raised: bool)
    requires |vs| == |outs| == |rows| && i < |rows| && ValidDateTime(now) && chosen == vs[i].enabled
    requires Distinct(rows) && Hold(rows, AfterPass(vs, now, outs, i))
    modifies rows[i]
    ensures fired == Due(vs[i], now) && raised == (fired && Raises(vs[i], now))
    ensures Hold(rows, AfterPass(vs, now, outs, if raised then i else i + 1))
  {
    assert AfterPass(vs, now, outs, i)[i] == vs[i];
    fired, raised := VisitRow(rows, i, chosen, now, outs[i], AfterPass(vs, now, outs, i));
  }

  /** The SELECT of the enabled rows. */
  method SelectEnabled(rows: seq<ScheduledRun>, ghost vs: seq<Row>) returns (chosen: seq<bool>)
    requires Hold(rows, vs)
    ensures |chosen| == |vs| && forall i :: 0 <= i < |vs| ==> chosen[i] == vs[i].enabled
  {
    chosen := [];
    for i := 0 to |rows|
      invariant |chosen| == i && forall j :: 0 <= j < i ==> chosen[j] == vs[j].enabled
    {
      assert rows[i].Value() == vs[i];
      chosen := chosen + [rows[i].enabled];
    }
  }

  /**
   `run_due_schedules`, undisturbed, over rows whose values are `vs`: every due row fires once and is advanced,
   every other row keeps its value, and `ran` counts the fires. A row whose next run cannot be
   computed stops the pass; the rows from there on keep their values.
   */
  method RunDue(rows: seq<ScheduledRun>, now: DateTime, outs: seq<Outcome>, ghost vs: seq<Row>)
    returns (ran: nat, done: nat)
    requires forall i, j :: 0 <= i < j < |rows| ==> rows[i] != rows[j]
    requires |outs| == |rows| == |vs| && ValidDateTime(now) && forall i :: 0 <= i < |rows| ==> rows[i].Value() == vs[i]
    modifies rows
    ensures done <= |rows|
    ensures forall i :: 0 <= i < |rows| ==> rows[i].Value() == if i < done then TickRow(vs[i], now, outs[i]) else vs[i]
    ensures done < |rows| ==> Due(vs[done], now) && Raises(vs[done], now)
    ensures forall i :: 0 <= i < done && Due(vs[i], now) ==> !Raises(vs[i], now)
    ensures ran == CountDue(vs[..done], now)
  {
    ran, done := 0, 0;
    var chosen := SelectEnabled(rows, vs);
    while done < |rows|
      invariant 0 <= done <= |rows| && Hold(rows, AfterPass(vs, now, outs, done))
      invariant NoneRaised(vs, now, done)
      invariant ran == CountDue(vs[..done], now)
    {
      var fired, raised := VisitNext(rows, done, chosen[done], now, outs, vs);
      if raised {
        return;
      }
      OneMoreVisited(vs, done, now);
      ran := ran + if fired then 1 else 0;
      done := done + 1;
    }
  }

  // ----- one schedule, any history -----

  type Stamp = t: DateTime | ValidDateTime(t) witness DateTime(Date(1, 1, 1), 0, 0, 0, 0)

  /**
   Where the ticker's pass is with this row; there is one ticker, so one pass at a time. `seen` is what the SELECT
   loaded of the row.
   */
  datatype Pass<T> = Idle | Chosen(at: Stamp, selected: bool, seen: T) | Running(at: Stamp)

  datatype Sched = Sched(row: Row, pass: Pass<DateTime>)

  /**
   The pass comes to the row at `Begin`: with the row as loaded until its first commit, reading it again (`live`)
   after that.
   */
  datatype Event =
    | Select(now: Stamp)
    | Begin(live: bool)
    | Finish(out: Outcome)
    | Toggle(now: Stamp)
    | SetEnabled(now: Stamp, on: bool)
    | RunNow(now: Stamp, out: Outcome)

  /** The ticker runs the tool at event `e`. */
  predicate Fires(s: Sched, e: Event) {
    e.Begin? && s.pass.Chosen? && s.pass.selected && AtMost(if e.live then s.row.nextRun else s.pass.seen, s.pass.at)
  }

  function Step(s: Sched, e: Event): Sched {
    match e
    case Select(now) => if s.pass.Running? then s else s.(pass := Chosen(now, s.row.enabled, s.row.nextRun))
    case Begin(_) =>
      if !s.pass.Chosen? then s
      else if Fires(s, e) then s.(pass := Running(s.pass.at))
      else s.(pass := Idle)
    case Finish(out) => if s.pass.Running? then Sched(RunOnce(s.row, s.pass.at, true, out), Idle) else s
    case Toggle(now) => s.(row := Toggled(s.row, now))
    case SetEnabled(now, on) => s.(row := Set(s.row, on, now))
    case RunNow(now, out) => s.(row := RunOnce(s.row, now, false, out))
  }

  function Run(s: Sched, es: seq<Event>): Sched {
    if es == [] then s else Step(Run(s, es[..|es| - 1]), es[|es| - 1])
  }

  /** Its three events in a row are what the pass does to a row it is not disturbed at. */
  lemma PassIsTick(r: Row, now: Stamp, live: bool, out: Outcome)
    ensures Step(Step(Step(Sched(r, Idle), Select(now)), Begin(live)), Finish(out)) == Sched(TickRow(r, now, out), Idle)
  {
  }

  /** Runs are recorded, cut to 300 characters, the ticker's at the time of its pass; nothing else sets the record. */
  lemma RunsAreRecorded(s: Sched, e: Event)
    ensures e.RunNow? ==>
              var told := if |e.out.result| <= 300 then e.out.result else e.out.result[..300];
              Step(s, e) == s.(row := s.row.(lastRun := Ran(e.now, e.out.status, told)))
    ensures e.Finish? && s.pass.Running? && ComputeNextRun(s.row.cadence, s.pass.at).Next? ==>
              var told := if |e.out.result| <= 300 then e.out.result else e.out.result[..300];
              Step(s, e).row.lastRun == Ran(s.pass.at, e.out.status, told) && Step(s, e).row.enabled == s.row.enabled
    ensures !e.RunNow? && !e.Finish? ==> Step(s, e).row.lastRun == s.row.lastRun
  {
  }

  /** The event reads a clock that decides something later; a manual run's reading does not. */
  predicate Timed(e: Event) {
    e.Select? || e.Toggle? || e.SetEnabled?
  }

  /** All those clock readings come before the last representable year. */
  ghost predicate InRange(start: Stamp, es: seq<Event>) {
    start.date.year < MAX_YEAR && forall i :: 0 <= i < |es| && Timed(es[i]) ==> es[i].now.date.year < MAX_YEAR
  }

  /** A clock that never goes back, from `start` on; manual runs may overlap anything. */
  ghost predicate Ordered(start: Stamp, es: seq<Event>) {
    && (forall i :: 0 <= i < |es| && Timed(es[i]) ==> Instant(start) <= Instant(es[i].now))
    && (forall i, j :: 0 <= i < j < |es| && Timed(es[i]) && Timed(es[j]) ==> Instant(es[i].now) <= Instant(es[j].now))
  }

  /** `schedules_create`: a new row, enabled, with the first occurrence after its creation. */
  ghost predicate CreatedAt(s: Sched, start: Stamp) {
    s.pass.Idle? && s.row.enabled && ComputeNextRun(s.row.cadence, start) == Next(s.row.nextRun)
    && s.row.cadence.frequency in FREQUENCIES
  }

  // The rule without a stored next run.

  /** Whether it is enabled, when it was last looked at, and where the pass is; `seen` is the look at its SELECT. */
  datatype Look = Look(enabled: bool, at: Stamp, pass: Pass<Stamp>)

  ghost predicate OccursWithin(c: Cadence, lo: Stamp, hi: Stamp) {
    exists t :: Instant(lo) < t <= Instant(hi) && Matches(c, t)
  }

  function Later(a: Stamp, b: Stamp): Stamp {
    if Instant(a) < Instant(b) then b else a
  }

  /** The look that a visit goes by. */
  function LookUsed(k: Look, live: bool): Stamp
    requires k.pass.Chosen?
  {
    if live then k.at else k.pass.seen
  }

  ghost predicate RuleFires(c: Cadence, k: Look, e: Event) {
    e.Begin? && k.pass.Chosen? && k.pass.selected && OccursWithin(c, LookUsed(k, e.live), k.pass.at)
  }

  /** A visit that finds nothing to do is a look, unless it went by what another look has overtaken. */
  function Visit(k: Look, live: bool): Stamp
    requires k.pass.Chosen?
  {
    if k.pass.selected && LookUsed(k, live) == k.at then Later(k.at, k.pass.at) else k.at
  }

  /**
   A schedule is looked at when it is created or enabled, when a pass comes to it and finds nothing to do, and,
   as of the start of the pass, when a run is committed.
   */
  ghost function RuleStep(c: Cadence, k: Look, e: Event): Look {
    match e
    case Select(now) => if k.pass.Running? then k else k.(pass := Chosen(now, k.enabled, k.at))
    case Begin(live) =>
      if RuleFires(c, k, e) then k.(pass := Running(k.pass.at))
      else if k.pass.Chosen? then k.(pass := Idle, at := Visit(k, live))
      else k
    case Finish(_) => if k.pass.Running? then k.(pass := Idle, at := k.pass.at) else k
    case Toggle(now) => k.(enabled := !k.enabled, at := if k.enabled then k.at else now)
    case SetEnabled(now, on) => k.(enabled := on, at := if on then now else k.at)
    case RunNow(_, _) => k
  }

  ghost function Rule(c: Cadence, start: Stamp, es: seq<Event>): Look {
    if es == [] then Look(true, start, Idle) else RuleStep(c, Rule(c, start, es[..|es| - 1]), es[|es| - 1])
  }

  // ----- proofs -----

  lemma RoomFor(t: DateTime, k: nat)
    requires ValidDate(t.date) && t.date.year < MAX_YEAR && k <= 7
    ensures AddDays(t, k).Next?
  {
    var n := Ordinal(t.date);
    OrdinalIsPositive(t.date);
    OrdinalIsMonotone(t.date, Date(MAX_YEAR - 1, 12, 31));
    YearLength(MAX_YEAR - 1);
    YearBound(n + k);
    assert DaysBeforeMonth(MAX_YEAR - 1, 13) == DaysBeforeMonth(MAX_YEAR - 1, 12) + 31;
    MonthsInOrder(MAX_YEAR, 1, 12);
  }

  /** Before the last year there is always a next run. */
  lemma AlwaysNext(c: Cadence, now: DateTime)
    requires ValidDateTime(now) && now.date.year < MAX_YEAR && c.frequency in FREQUENCIES
    ensures ComputeNextRun(c, now).Next?
  {
    var base := Base(c, now);
    BaseTime(c, now, base);
    if c.frequency == "daily" {
      RoomFor(base, 1);
    } else if c.frequency == "weekly" {
      var k, lo := WeeklySteps(c, now, base);
      RoomFor(base, k);
    }
  }

  /** A first occurrence later than `mid` is still the first one counted from `mid`. */
  lemma FirstFromLater(c: Cadence, lo: int, mid: int, at: int)
    requires IsFirstAfter(c, lo, at) && mid < at
    ensures IsFirstAfter(c, if lo < mid then mid else lo, at)
  {
  }

  /** The stored time is the first occurrence after the look. */
  ghost predicate Stored(c: Cadence, next: DateTime, look: Stamp) {
    ValidDateTime(next) && IsFirstAfter(c, Instant(look), Instant(next))
  }

  /** The two accounts of where the pass is. */
  ghost predicate PassesAgree(c: Cadence, p: Pass<DateTime>, q: Pass<Stamp>) {
    match p
    case Idle => q.Idle?
    case Chosen(at, selected, seen) =>
      q.Chosen? && q.at == at && q.selected == selected && at.date.year < MAX_YEAR && Stored(c, seen, q.seen)
    case Running(at) => q.Running? && q.at == at && at.date.year < MAX_YEAR
  }

  /** The rule knows all of the row but its stored time, and that is the first occurrence after the last look. */
  ghost predicate Agrees(c: Cadence, s: Sched, k: Look) {
    && s.row.cadence == c && s.row.enabled == k.enabled && Stored(c, s.row.nextRun, k.at)
    && PassesAgree(c, s.pass, k.pass)
  }

  lemma RuleDecides(c: Cadence, s: Sched, k: Look, e: Event)
    requires Agrees(c, s, k)
    ensures Fires(s, e) <==> RuleFires(c, k, e)
  {
    if e.Begin? && k.pass.Chosen? {
      var next := if e.live then s.row.nextRun else s.pass.seen;
      AtMostIsInstantOrder(next, k.pass.at);
      assert Stored(c, next, LookUsed(k, e.live)) && Matches(c, Instant(next));
    }
  }

  /** Two stored times for one look are one. */
  lemma OneFirst(c: Cadence, look: int, a: int, b: int)
    requires IsFirstAfter(c, look, a) && IsFirstAfter(c, look, b)
    ensures a == b
  {
  }

  lemma VisitAgrees(c: Cadence, s: Sched, k: Look, live: bool)
    requires Agrees(c, s, k) && k.pass.Chosen? && !Fires(s, Begin(live))
    ensures Stored(c, s.row.nextRun, Visit(k, live))
  {
    if k.pass.selected && LookUsed(k, live) == k.at {
      var next := if live then s.row.nextRun else s.pass.seen;
      OneFirst(c, Instant(k.at), Instant(next), Instant(s.row.nextRun));
      AtMostIsInstantOrder(next, k.pass.at);
      FirstFromLater(c, Instant(k.at), Instant(k.pass.at), Instant(s.row.nextRun));
    }
  }

  lemma Recomputed(c: Cadence, now: Stamp)
    requires c.frequency in FREQUENCIES && now.date.year < MAX_YEAR
    ensures ComputeNextRun(c, now).Next?
    ensures var at := ComputeNextRun(c, now).at; ValidDateTime(at) && IsFirstAfter(c, Instant(now), Instant(at))
  {
    AlwaysNext(c, now);
    NextRunIsFirst(c, now);
  }

  lemma AgreesStep(c: Cadence, s: Sched, k: Look, e: Event)
    requires Agrees(c, s, k) && c.frequency in FREQUENCIES
    requires Timed(e) ==> e.now.date.year < MAX_YEAR
    ensures Agrees(c, Step(s, e), RuleStep(c, k, e))
  {
    RuleDecides(c, s, k, e);
    match e
    case Begin(live) =>
      if k.pass.Chosen? && !Fires(s, e) {
        VisitAgrees(c, s, k, live);
      }
    case Finish(_) =>
      if k.pass.Running? {
        Recomputed(c, k.pass.at);
      }
    case Toggle(now) => Recomputed(c, now);
    case SetEnabled(now, _) => Recomputed(c, now);
    case _ =>
  }

  /** What the stored state means at every point of every history, whatever order the clock readings come in. */
  lemma {:induction false} StoredStateMeaning(s: Sched, start: Stamp, es: seq<Event>)
    requires InRange(start, es) && CreatedAt(s, start)
    ensures Agrees(s.row.cadence, Run(s, es), Rule(s.row.cadence, start, es))
  {
    if es == [] {
      NextRunIsFirst(s.row.cadence, start);
    } else {
      var before := es[..|es| - 1];
      StoredStateMeaning(s, start, before);
      AgreesStep(s.row.cadence, Run(s, before), Rule(s.row.cadence, start, before), es[|es| - 1]);
    }
  }

  /**
   The ticker's rule: when a pass comes to a schedule, in any history, it fires exactly when the schedule was
   enabled as the pass began and its cadence has an occurrence between that moment and the last look: the last
   before the pass began if nothing has been committed in it yet, the last of all later on. Pausing the schedule in
   between does not stop it, and enabling it anew does only then.
   */
  lemma TickRule(s: Sched, start: Stamp, es: seq<Event>, e: Event)
    requires InRange(start, es) && CreatedAt(s, start)
    ensures Fires(Run(s, es), e) <==> RuleFires(s.row.cadence, Rule(s.row.cadence, start, es), e)
  {
    StoredStateMeaning(s, start, es);
    RuleDecides(s.row.cadence, Run(s, es), Rule(s.row.cadence, start, es), e);
  }

  ghost predicate InPass(k: Look, t: Stamp) {
    !k.pass.Idle? && k.pass.at == t
  }

  /** The time of a pass was read at its SELECT. */
  lemma {:induction false} PassBegan(c: Cadence, start: Stamp, es: seq<Event>, t: Stamp) returns (i: nat)
    requires InPass(Rule(c, start, es), t)
    ensures i < |es| && es[i].Select? && es[i].now == t
  {
    var before, e := es[..|es| - 1], es[|es| - 1];
    if e.Select? && e.now == t {
      i := |es| - 1;
    } else {
      i := PassBegan(c, start, before, t);
    }
  }

  /** No look from here on is older than `t`. */
  ghost predicate NoOlderThan(k: Look, t: Stamp) {
    && (!k.pass.Running? ==> Instant(t) <= Instant(k.at))
    && (!k.pass.Idle? ==> Instant(t) <= Instant(k.pass.at))
    && (k.pass.Chosen? ==> Instant(t) <= Instant(k.pass.seen))
  }

  /** A look that has come in since the SELECT is not older than it. */
  lemma {:induction false} LookSinceSelect(c: Cadence, start: Stamp, es: seq<Event>)
    requires Ordered(start, es)
    ensures var k := Rule(c, start, es);
            k.pass.Chosen? && k.at != k.pass.seen ==> Instant(k.pass.at) <= Instant(k.at)
  {
    if es != [] {
      var before, e := es[..|es| - 1], es[|es| - 1];
      LookSinceSelect(c, start, before);
      var k := Rule(c, start, before);
      if k.pass.Chosen? && Timed(e) {
        var i := PassBegan(c, start, before, k.pass.at);
        assert before[i] == es[i];
      }
    }
  }

  lemma NoOlderStep(c: Cadence, k: Look, e: Event, t: Stamp)
    requires NoOlderThan(k, t) && (Timed(e) ==> Instant(t) <= Instant(e.now))
    ensures NoOlderThan(RuleStep(c, k, e), t)
  {
  }

  /**
   When a pass has come to a schedule it selected, no later look is older than the start of that pass; only
   while a run is on may the look still be the one before it.
   */
  lemma {:induction false} LooksOnlyForward(c: Cadence, start: Stamp, es: seq<Event>, i: nat)
    requires Ordered(start, es) && i < |es| && es[i].Begin?
    requires var p := Rule(c, start, es[..i]).pass; p.Chosen? && p.selected
    ensures NoOlderThan(Rule(c, start, es), Rule(c, start, es[..i]).pass.at)
  {
    var before, t := es[..|es| - 1], Rule(c, start, es[..i]).pass.at;
    if i < |es| - 1 {
      assert before[..i] == es[..i] && before[i] == es[i];
      LooksOnlyForward(c, start, before, i);
      var j := PassBegan(c, start, es[..i], t);
      assert es[j] == es[..i][j];
      NoOlderStep(c, Rule(c, start, before), es[|es| - 1], t);
    } else {
      LookSinceSelect(c, start, before);
    }
  }

  /**
   No occurrence is fired for twice: the stretches of time two fires answer for, each from the look used to the start
   of the pass, are disjoint.
   */
  lemma NeverTwiceForOneOccurrence(s: Sched, start: Stamp, es: seq<Event>, i: nat, j: nat, t: int)
    requires InRange(start, es) && Ordered(start, es) && CreatedAt(s, start) && i < j < |es|
    requires Fires(Run(s, es[..i]), es[i]) && Fires(Run(s, es[..j]), es[j])
    ensures var first, second := Rule(s.row.cadence, start, es[..i]), Rule(s.row.cadence, start, es[..j]);
            && first.pass.Chosen? && second.pass.Chosen?
            && !(&& Instant(LookUsed(first, es[i].live)) < t <= Instant(first.pass.at)
                 && Instant(LookUsed(second, es[j].live)) < t <= Instant(second.pass.at))
  {
    StoredStateMeaning(s, start, es[..i]);
    StoredStateMeaning(s, start, es[..j]);
    assert es[..j][..i] == es[..i];
    if Fires(Run(s, es[..i]), es[i]) {
      LooksOnlyForward(s.row.cadence, start, es[..j], i);
    }
  }

  /** The times of the passes that fired over a history. */
  function FiringTimes(s: Sched, es: seq<Event>): seq<Stamp> {
    if es == [] then [] else
    var before, e := es[..|es| - 1], es[|es| - 1];
    FiringTimes(s, before) + if Fires(Run(s, before), e) then [Run(s, before).pass.at] else []
  }

  /** One time for each fire, in order. */
  lemma FiringTimesMore(s: Sched, es: seq<Event>, e: Event)
    ensures Fires(Run(s, es), e) ==> FiringTimes(s, es + [e]) == FiringTimes(s, es) + [Run(s, es).pass.at]
    ensures !Fires(Run(s, es), e) ==> FiringTimes(s, es + [e]) == FiringTimes(s, es)
    ensures FiringTimes(s, []) == []
  {
    assert (es + [e])[..|es|] == es;
  }

  function WithoutManual(es: seq<Event>): seq<Event> {
    if es == [] then [] else
    WithoutManual(es[..|es| - 1]) + if es[|es| - 1].RunNow? then [] else [es[|es| - 1]]
  }

  ghost predicate SameSchedule(a: Sched, b: Sched) {
    && a.row.cadence == b.row.cadence && a.row.enabled == b.row.enabled && a.row.nextRun == b.row.nextRun
    && a.pass == b.pass
  }

  lemma LastRunIsNeverRead(a: Sched, b: Sched, e: Event)
    requires SameSchedule(a, b)
    ensures SameSchedule(Step(a, e), Step(b, e)) && Fires(a, e) == Fires(b, e)
    ensures e.RunNow? ==> SameSchedule(Step(a, e), a) && !Fires(a, e)
  {
  }

  /** Manual runs leave the firing sequence as it is, and change no more than the recorded last run. */
  lemma {:induction false} ManualRunsDoNotDisturb(s: Sched, es: seq<Event>)
    ensures FiringTimes(s, WithoutManual(es)) == FiringTimes(s, es)
    ensures SameSchedule(Run(s, WithoutManual(es)), Run(s, es))
  {
    if es != [] {
      var before, e := es[..|es| - 1], es[|es| - 1];
      ManualRunsDoNotDisturb(s, before);
      LastRunIsNeverRead(Run(s, before), Run(s, WithoutManual(before)), e);
      if e.RunNow? {
        assert WithoutManual(es) == WithoutManual(before);
      } else {
        var kept := WithoutManual(es);
        assert kept[..|kept| - 1] == WithoutManual(before);
      }
    }
  }
}
