/**
 `portal/app_tools.py`, `run_tool`: slots are reserved before the work and given back if it fails.

 The class runs one execution, with every call it makes free to fail (`World`). The state machine below it
 runs any number of executions of one user at once against one rate limit and the render semaphore.
 */
module RunTool {
  import opened SlidingWindows
  import opened RateLimits

  const PDF_CONCURRENCY := 2
  const MAX_OBJECT_BYTES := 10 * 1024 * 1024
  const MAX_EMAIL_RECIPIENTS := 20

  datatype Kind = Share | Download | Store | Email | Unknown

  datatype Service = PdfService | StorageService | EmailService

  /** How the foreign calls of one execution answer. */
  datatype World = World(
    mayRun: bool, allowed: set<Service>, templatesRender: bool,
    pdfEngine: bool, renders: bool, pdfSize: nat,
    shareStored: bool, keyValid: bool, fitsNamespace: bool, written: bool,
    smtpConfigured: bool, recipients: nat, addressesValid: bool, recipientsAllowed: bool, sent: bool)

  function Needed(kind: Kind): set<Service> {
    match kind
    case Email => {EmailService}
    case Store => {PdfService, StorageService}
    case _ => {PdfService}
  }

  /** `_check_pdf_rate` is called for this kind. */
  predicate TakesPdfSlot(kind: Kind) {
    kind == Share || kind == Download || kind == Store
  }

  /** Nothing but the two rate limits and the render permit stands in the way. */
  predicate WouldDeliver(kind: Kind, w: World) {
    && w.mayRun && w.templatesRender
    && match kind
       case Share => PdfService in w.allowed && w.pdfEngine && w.renders && w.shareStored
       case Download => PdfService in w.allowed && w.pdfEngine && w.renders && w.pdfSize <= MAX_OBJECT_BYTES
       case Store =>
         && PdfService in w.allowed && StorageService in w.allowed && w.keyValid && w.pdfEngine && w.renders
         && w.pdfSize <= MAX_OBJECT_BYTES && w.fitsNamespace && w.written
       case Email =>
         && EmailService in w.allowed && w.smtpConfigured && 0 < w.recipients <= MAX_EMAIL_RECIPIENTS
         && w.addressesValid && w.recipientsAllowed && w.sent
       case Unknown => false
  }

  datatype Outcome = Raised | Delivered

  /** A log that has at most lost entries too old to count. */
  predicate OnlyPruned(before: seq<int>, after: seq<int>, from: int) {
    after == before || after == Dropped(before, from)
  }

  lemma PopUndoesPush(s: seq<int>, t: int, n: nat)
    ensures Popped(s + Repeat(t, n), n) == s
  {
  }

  class Tools {
    const pdf: RateLog
    const email: RateLog
    var permits: nat

    constructor ()
      ensures Valid() && permits == PDF_CONCURRENCY && fresh(pdf) && fresh(email)
      ensures pdf.log == map[] && email.log == map[]
    {
      pdf := new RateLog(PDF);
      email := new RateLog(EMAIL);
      permits := PDF_CONCURRENCY;
    }

    ghost predicate Valid()
    {
      pdf != email && pdf.lim == PDF && email.lim == EMAIL
    }

    /** `with pdf_render_slot()`: without a free permit nothing is taken, so nothing may be released. */
    method Render(w: World) returns (ok: bool)
      modifies this`permits
      ensures permits == old(permits)
      ensures ok <==> w.pdfEngine && old(permits) > 0 && w.renders
    {
      if !w.pdfEngine || permits == 0 {
        return false;
      }
      permits := permits - 1;
      ok := w.renders;
      permits := permits + 1;
    }

    /** The work of one kind once its PDF slot is reserved; for email, up to and including the send. */
    method Deliver(kind: Kind, user: nat, now: int, w: World) returns (o: Outcome, emailSlots: nat)
      requires pdf != email && email.lim == EMAIL
      requires w.mayRun && Needed(kind) <= w.allowed && w.templatesRender
      modifies this`permits, email
      ensures permits == old(permits)
      ensures emailSlots == 0 ==> OnlyPruned(old(email.Of(user)), email.Of(user), now - EMAIL.window)
      ensures emailSlots > 0 ==>
                email.Of(user) == Dropped(old(email.Of(user)), now - EMAIL.window) + Repeat(now, emailSlots)
      ensures forall u :: u != user ==> email.Of(u) == old(email.Of(u))
      ensures o.Delivered? ==> emailSlots == if kind.Email? then w.recipients else 0
      ensures o.Delivered? <==>
              && WouldDeliver(kind, w) && (TakesPdfSlot(kind) ==> old(permits) > 0)
              && (kind.Email? ==> Reserve(old(email.Of(user)), EMAIL, now, w.recipients).0)
    {
      o, emailSlots := Raised, 0;
      if kind.Share? {
        var rendered := Render(w);
        o := if rendered && w.shareStored then Delivered else Raised;
      } else if kind.Download? {
        var rendered := Render(w);
        o := if rendered && w.pdfSize <= MAX_OBJECT_BYTES then Delivered else Raised;
      } else if kind.Store? && w.keyValid {
        var rendered := Render(w);
        o := if rendered && w.pdfSize <= MAX_OBJECT_BYTES && w.fitsNamespace && w.written then Delivered else Raised;
      } else if kind.Email? {
        if w.smtpConfigured && 0 < w.recipients <= MAX_EMAIL_RECIPIENTS && w.addressesValid && w.recipientsAllowed {
          var granted := email.Check(user, now, w.recipients);
          emailSlots := if granted then w.recipients else 0;
          o := if granted && w.sent then Delivered else Raised;
        }
      }
    }

    /**
     One execution. If it raises, the user's logs hold the slots they held before; if it returns, one PDF slot
     more, or one email slot per recipient. The permit is back either way.
     */
    method Execute(kind: Kind, user: nat, now: int, w: World) returns (o: Outcome)
      requires Valid()
      modifies this`permits, pdf, email
      ensures permits == old(permits)
      ensures o.Raised? ==>
                && pdf.Of(user) in {old(pdf.Of(user)), Dropped(old(pdf.Of(user)), now - PDF.window)}
                && email.Of(user) in {old(email.Of(user)), Dropped(old(email.Of(user)), now - EMAIL.window)}
      ensures o.Delivered? && kind in {Share, Download, Store} ==>
                && pdf.Of(user) == Dropped(old(pdf.Of(user)), now - PDF.window) + Repeat(now, 1)
                && email.Of(user) in {old(email.Of(user)), Dropped(old(email.Of(user)), now - EMAIL.window)}
      ensures o.Delivered? && kind.Email? ==>
                && email.Of(user) == Dropped(old(email.Of(user)), now - EMAIL.window) + Repeat(now, w.recipients)
                && pdf.Of(user) == old(pdf.Of(user))
      ensures o.Delivered? <==>
              && WouldDeliver(kind, w)
              && (kind in {Share, Download, Store} ==> old(permits) > 0 && Reserve(old(pdf.Of(user)), PDF, now, 1).0)
              && (kind.Email? ==> Reserve(old(email.Of(user)), EMAIL, now, w.recipients).0)
      ensures forall u :: u != user ==> pdf.Of(u) == old(pdf.Of(u)) && email.Of(u) == old(email.Of(u))
    {
      if !w.mayRun || !(Needed(kind) <= w.allowed) || !w.templatesRender {
        return Raised;
      }
      var pdfSlot, emailSlots;
      o, pdfSlot, emailSlots := TryBlock(kind, user, now, w);
      if o.Raised? {
        GiveBack(user, now, pdfSlot, emailSlots, Dropped(old(pdf.Of(user)), now - PDF.window),
                 Dropped(old(email.Of(user)), now - EMAIL.window));
      }
    }

    /** The `except` block: what the flags say was reserved comes off again, and nothing else. */
    method GiveBack(user: nat, now: int, pdfSlot: bool, emailSlots: nat, ghost p: seq<int>, ghost e: seq<int>)
      requires pdf != email
      requires pdfSlot ==> pdf.Of(user) == p + Repeat(now, 1)
      requires emailSlots > 0 ==> email.Of(user) == e + Repeat(now, emailSlots)
      modifies pdf, email
      ensures pdf.Of(user) == if pdfSlot then p else old(pdf.Of(user))
      ensures email.Of(user) == if emailSlots > 0 then e else old(email.Of(user))
      ensures forall u :: u != user ==> pdf.Of(u) == old(pdf.Of(u)) && email.Of(u) == old(email.Of(u))
    {
      if pdfSlot {
        PopUndoesPush(p, now, 1);
        pdf.Refund(user, 1);
      }
      if emailSlots > 0 {
        PopUndoesPush(e, now, emailSlots);
        email.Refund(user, emailSlots);
      }
    }

    /** The `try` block, with the slots it holds when it ends. */
    method TryBlock(kind: Kind, user: nat, now: int, w: World) returns (o: Outcome, pdfSlot: bool, emailSlots: nat)
      requires Valid() && w.mayRun && Needed(kind) <= w.allowed && w.templatesRender
      modifies this`permits, pdf, email
      ensures permits == old(permits)
      ensures pdfSlot ==> pdf.Of(user) == Dropped(old(pdf.Of(user)), now - PDF.window) + Repeat(now, 1)
      ensures !pdfSlot ==> OnlyPruned(old(pdf.Of(user)), pdf.Of(user), now - PDF.window)
      ensures !TakesPdfSlot(kind) ==> !pdfSlot && pdf.Of(user) == old(pdf.Of(user))
      ensures emailSlots == 0 ==> OnlyPruned(old(email.Of(user)), email.Of(user), now - EMAIL.window)
      ensures emailSlots > 0 ==>
                email.Of(user) == Dropped(old(email.Of(user)), now - EMAIL.window) + Repeat(now, emailSlots)
      ensures forall u :: u != user ==> pdf.Of(u) == old(pdf.Of(u)) && email.Of(u) == old(email.Of(u))
      ensures o.Delivered? ==> pdfSlot == TakesPdfSlot(kind) && emailSlots == if kind.Email? then w.recipients else 0
      ensures o.Delivered? <==>
              && WouldDeliver(kind, w)
              && (TakesPdfSlot(kind) ==> old(permits) > 0 && Reserve(old(pdf.Of(user)), PDF, now, 1).0)
              && (kind.Email? ==> Reserve(old(email.Of(user)), EMAIL, now, w.recipients).0)
    {
      o, pdfSlot, emailSlots := Raised, false, 0;
      if TakesPdfSlot(kind) {
        pdfSlot := pdf.Check(user, now, 1);
      }
      if pdfSlot || !TakesPdfSlot(kind) {
        o, emailSlots := Deliver(kind, user, now, w);
      }
    }
  }

  // ----- any number of executions at once -----

  /** Slots an execution reserved, and when. */
  datatype Slots = Slots(at: int, n: nat)

  /**
   The log of one user under one limit, as its history of checks and refunds; the executions that hold slots;
   the slots of those that returned; and the render semaphore.
   */
  datatype State = State(es: seq<Event>, held: map<nat, Slots>, delivered: nat, permits: nat, rendering: set<nat>)

  /** `TakeSlots` has read `at` before it took the lock, so readings come in any order. */
  datatype Action =
    | TakeSlots(th: nat, n: nat, at: int)
    | Acquire(th: nat)
    | Release(th: nat)
    | Fail(th: nat)
    | Return(th: nat)

  function Init(): State {
    State([], map[], 0, PDF_CONCURRENCY, {})
  }

  function Apply(lim: Limits, s: State, a: Action): State {
    match a
    case TakeSlots(th, n, at) =>
      if th in s.held then s else
      var asked := s.(es := s.es + [Check(at, n)]);
      if Granted(lim, s.es, at, n) then asked.(held := s.held[th := Slots(at, n)]) else asked
    case Acquire(th) =>
      if th in s.held && th !in s.rendering && s.permits > 0 then
        s.(permits := s.permits - 1, rendering := s.rendering + {th})
      else s
    case Release(th) =>
      if th in s.rendering then s.(permits := s.permits + 1, rendering := s.rendering - {th}) else s
    case Fail(th) =>
      if th in s.held && th !in s.rendering then
        s.(es := s.es + [Refund(s.held[th].n, s.held[th].at)], held := s.held - {th})
      else s
    case Return(th) =>
      if th in s.held && th !in s.rendering then
        s.(delivered := s.delivered + s.held[th].n, held := s.held - {th})
      else s
  }

  function RunAll(lim: Limits, acts: seq<Action>): State {
    if acts == [] then Init() else Apply(lim, RunAll(lim, acts[..|acts| - 1]), acts[|acts| - 1])
  }

  ghost function HeldSlots(held: map<nat, Slots>): nat {
    if held == map[] then 0 else
    var th :| th in held;
    held[th].n + HeldSlots(held - {th})
  }

  lemma {:induction false} HeldWithout(held: map<nat, Slots>, th: nat)
    requires th in held
    ensures HeldSlots(held) == held[th].n + HeldSlots(held - {th})
    decreases |held|
  {
    var k :| k in held && HeldSlots(held) == held[k].n + HeldSlots(held - {k});
    if k != th {
      HeldWithout(held - {k}, th);
      HeldWithout(held - {th}, k);
      assert held - {k} - {th} == held - {th} - {k};
    }
  }

  lemma HeldWith(held: map<nat, Slots>, th: nat, taken: Slots)
    requires th !in held
    ensures HeldSlots(held[th := taken]) == HeldSlots(held) + taken.n
  {
    HeldWithout(held[th := taken], th);
    assert held[th := taken] - {th} == held;
  }

  /** Slots on record: granted and not given back. */
  function OnRecord(lim: Limits, s: State): nat {
    |Run(lim, s.es).net|
  }

  ghost predicate Good(lim: Limits, s: State) {
    && OnRecord(lim, s) == s.delivered + HeldSlots(s.held)
    && s.permits + |s.rendering| == PDF_CONCURRENCY && s.rendering <= s.held.Keys
  }

  lemma TakeStep(lim: Limits, s: State, th: nat, n: nat, at: int)
    requires Good(lim, s) && th !in s.held
    ensures Good(lim, Apply(lim, s, TakeSlots(th, n, at)))
  {
    ExtendRun(lim, s.es, Check(at, n));
    HeldWith(s.held, th, Slots(at, n));
  }

  lemma FailStep(lim: Limits, s: State, th: nat)
    requires Good(lim, s) && th in s.held && th !in s.rendering
    ensures Good(lim, Apply(lim, s, Fail(th)))
  {
    ExtendRun(lim, s.es, Refund(s.held[th].n, s.held[th].at));
    HeldWithout(s.held, th);
  }

  lemma GoodStep(lim: Limits, s: State, a: Action)
    requires Good(lim, s)
    ensures Good(lim, Apply(lim, s, a))
  {
    match a
    case TakeSlots(th, n, at) =>
      if th !in s.held {
        TakeStep(lim, s, th, n, at);
      }
    case Fail(th) =>
      if th in s.held && th !in s.rendering {
        FailStep(lim, s, th);
      }
    case Return(th) =>
      if th in s.held {
        HeldWithout(s.held, th);
      }
    case _ =>
  }

  lemma {:induction false} GoodRun(lim: Limits, acts: seq<Action>)
    ensures Good(lim, RunAll(lim, acts))
  {
    if acts != [] {
      GoodRun(lim, acts[..|acts| - 1]);
      GoodStep(lim, RunAll(lim, acts[..|acts| - 1]), acts[|acts| - 1]);
    }
  }

  /**
   Slots are conserved under every interleaving: the net reservations are those of the executions that
   returned and of the ones still running. A refund takes the newest slots, possibly someone else's, but never
   finds too few. Permits and renders under way always make up the two, so a free one is never over-released.
   */
  lemma SlotsAreConserved(lim: Limits, acts: seq<Action>)
    ensures var s := RunAll(lim, acts);
            && OnRecord(lim, s) == s.delivered + HeldSlots(s.held)
            && (forall th :: th in s.held ==> s.held[th].n <= OnRecord(lim, s))
            && s.permits + |s.rendering| == PDF_CONCURRENCY
            && (s.held == map[] ==> OnRecord(lim, s) == s.delivered && s.permits == PDF_CONCURRENCY)
  {
    GoodRun(lim, acts);
    var s := RunAll(lim, acts);
    forall th | th in s.held ensures s.held[th].n <= OnRecord(lim, s) {
      HeldWithout(s.held, th);
    }
    if s.held == map[] {
      assert s.rendering == {};
    }
  }

  lemma {:induction false} DequeIsNoLonger(lim: Limits, es: seq<Event>)
    ensures |Run(lim, es).dq| <= |Run(lim, es).net|
  {
    if es != [] {
      var before := es[..|es| - 1];
      DequeIsNoLonger(lim, before);
      if es[|es| - 1].Check? {
        DroppedIsSuffix(Run(lim, before).dq, es[|es| - 1].now - lim.window);
      }
    }
  }

  /** Executions that raise leave no trace: with none returned and none running, the full limit is free again. */
  lemma FailuresCostNothing(lim: Limits, acts: seq<Action>, n: nat, at: int)
    requires RunAll(lim, acts).delivered == 0 && RunAll(lim, acts).held == map[] && n <= lim.limit
    ensures Granted(lim, RunAll(lim, acts).es, at, n)
  {
    SlotsAreConserved(lim, acts);
    DequeIsNoLonger(lim, RunAll(lim, acts).es);
  }

  lemma RunAllMore(lim: Limits, acts: seq<Action>, a: Action)
    ensures RunAll(lim, acts + [a]) == Apply(lim, RunAll(lim, acts), a)
  {
    assert (acts + [a])[..|acts|] == acts;
  }

  /** In every run, an execution that asks for a permit gets one if and only if fewer than two renders are under way. */
  lemma RenderStartsIff(lim: Limits, acts: seq<Action>, th: nat)
    requires th in RunAll(lim, acts).held
    ensures var s, after := RunAll(lim, acts), RunAll(lim, acts + [Acquire(th)]);
            && after.rendering == (if |s.rendering| < 2 then s.rendering + {th} else s.rendering)
            && after.es == s.es && after.held == s.held && after.delivered == s.delivered
  {
    GoodRun(lim, acts);
    RunAllMore(lim, acts, Acquire(th));
    var s := RunAll(lim, acts);
    if th in s.rendering {
      assert s.rendering + {th} == s.rendering;
    }
  }

  /** The steps of one execution up to the end of its render. */
  function Steps(th: nat, n: nat, at: int): seq<Action> {
    [TakeSlots(th, n, at), Acquire(th), Release(th)]
  }

  lemma StepsMore(lim: Limits, acts: seq<Action>, th: nat, n: nat, at: int)
    ensures RunAll(lim, acts + Steps(th, n, at)) ==
            Apply(lim, Apply(lim, Apply(lim, RunAll(lim, acts), TakeSlots(th, n, at)), Acquire(th)), Release(th))
  {
    var one, two := acts + [TakeSlots(th, n, at)], acts + [TakeSlots(th, n, at)] + [Acquire(th)];
    RunAllMore(lim, acts, TakeSlots(th, n, at));
    RunAllMore(lim, one, Acquire(th));
    RunAllMore(lim, two, Release(th));
    assert acts + Steps(th, n, at) == two + [Release(th)];
  }

  lemma StepsFrom(lim: Limits, s: State, th: nat, n: nat, at: int, granted: bool)
    requires th !in s.held && th !in s.rendering && s.permits > 0 && granted == Granted(lim, s.es, at, n)
    ensures var asked := s.(es := s.es + [Check(at, n)]);
            Apply(lim, Apply(lim, Apply(lim, s, TakeSlots(th, n, at)), Acquire(th)), Release(th)) ==
            if granted then asked.(held := s.held[th := Slots(at, n)]) else asked
  {
    assert s.rendering + {th} - {th} == s.rendering;
  }

  lemma EndsFrom(lim: Limits, s: State, th: nat, n: nat, at: int, succeeds: bool)
    requires th !in s.held && th !in s.rendering
    ensures Apply(lim, s.(held := s.held[th := Slots(at, n)]), if succeeds then Return(th) else Fail(th)) ==
            if succeeds then s.(delivered := s.delivered + n) else s.(es := s.es + [Refund(n, at)])
    ensures Apply(lim, s, if succeeds then Return(th) else Fail(th)) == s
  {
    assert s.held[th := Slots(at, n)] - {th} == s.held;
  }

  /**
   One execution after any history, with none beside it: refused, it leaves a refused check; granted, it renders
   within a permit that comes back, and then its slots count for good or are given back with its own time.
   */
  lemma OneExecution(lim: Limits, acts: seq<Action>, th: nat, n: nat, at: int, succeeds: bool)
    requires th !in RunAll(lim, acts).held && th !in RunAll(lim, acts).rendering && RunAll(lim, acts).permits > 0
    ensures var s := RunAll(lim, acts);
            RunAll(lim, acts + Steps(th, n, at) + [if succeeds then Return(th) else Fail(th)]) ==
            if !Granted(lim, s.es, at, n) then s.(es := s.es + [Check(at, n)])
            else if succeeds then s.(es := s.es + [Check(at, n)], delivered := s.delivered + n)
            else s.(es := s.es + [Check(at, n)] + [Refund(n, at)])
  {
    var s := RunAll(lim, acts);
    StepsMore(lim, acts, th, n, at);
    StepsFrom(lim, s, th, n, at, Granted(lim, s.es, at, n));
    EndsFrom(lim, s.(es := s.es + [Check(at, n)]), th, n, at, succeeds);
    RunAllMore(lim, acts + Steps(th, n, at), if succeeds then Return(th) else Fail(th));
  }

  /** An execution that has taken its slots holds them, and nobody else's step takes them away. */
  lemma HoldsItsSlots(lim: Limits, s: State, a: Action, th: nat)
    requires th in s.held && a != Fail(th) && a != Return(th)
    ensures th in Apply(lim, s, a).held && Apply(lim, s, a).held[th] == s.held[th]
  {
  }
}
