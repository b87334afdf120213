/**
 `portal/apps.py`: what an app may call and reach, over its whole history of uploads and admin forms.

 A row keeps what the manifest asks for, what is allowed and what the admin has revoked; a
 revocation outlives the manifest that asked. The class updates a row as the handlers do. `Run` is a history of
 handlers one after the other, and the theorems about it say what the lists amount to. `Play` lets them overlap:
 a handler loads the row, long before it commits if it is a replace, and its UPDATE writes the columns
 it has changed in its own copy. The theorems about `Play` say which of the promises survive that, and exactly when.
 */
module Permissions {

  const ALLOWED_SERVICES: set<string> := {"pdf", "email", "storage"}

  /** What an upload's manifest declares; unknown services do not pass its validator. */
  datatype Manifest = Manifest(services: seq<string>, network: seq<string>)

  predicate ValidManifest(m: Manifest) {
    forall s :: s in m.services ==> s in ALLOWED_SERVICES
  }

  datatype Row = Row(
    services: seq<string>, allowedServices: seq<string>, revokedServices: set<string>, ungated: bool,
    requested: seq<string>, allowedOrigins: seq<string>, revokedOrigins: set<string>)

  /** `checked` are the boxes ticked, as posted; `extras` the valid origins typed into the text box. */
  datatype Event =
    | Replace(manifest: Manifest)
    | ServicesForm(checked: seq<string>)
    | NetworkForm(checked: seq<string>, extras: seq<string>)

  /** The row as committed, and the copies that handlers under way have loaded. */
  datatype Site = Site(row: Row, loaded: map<nat, Row>)

  datatype Act = Load(th: nat) | Commit(th: nat, event: Event) | GiveUp(th: nat)

  // ----- list helpers -----

  function Elems(s: seq<string>): set<string> {
    set x | x in s
  }

  lemma ElemsAppend(s: seq<string>, x: string)
    ensures Elems(s + [x]) == Elems(s) + {x}
  {
    forall y ensures y in Elems(s + [x]) <==> y in Elems(s) + {x} {
      assert y in s + [x] <==> y in s || y == x;
    }
  }

  /** `[x for x in s if x in keep]`. */
  function Keep(s: seq<string>, keep: set<string>): (r: seq<string>)
    ensures Elems(r) == Elems(s) * keep
  {
    if s == [] then [] else
    var r := Keep(s[..|s| - 1], keep);
    assert s == s[..|s| - 1] + [s[|s| - 1]];
    ElemsAppend(s[..|s| - 1], s[|s| - 1]);
    ElemsAppend(r, s[|s| - 1]);
    if s[|s| - 1] in keep then r + [s[|s| - 1]] else r
  }

  /** `[x for x in s if x not in drop]`. */
  function Drop(s: seq<string>, drop: set<string>): (r: seq<string>)
    ensures Elems(r) == Elems(s) - drop
  {
    if s == [] then [] else
    var r := Drop(s[..|s| - 1], drop);
    assert s == s[..|s| - 1] + [s[|s| - 1]];
    ElemsAppend(s[..|s| - 1], s[|s| - 1]);
    ElemsAppend(r, s[|s| - 1]);
    if s[|s| - 1] in drop then r else r + [s[|s| - 1]]
  }

  ghost predicate NoRepeats(s: seq<string>) {
    forall i, j :: 0 <= i < j < |s| ==> s[i] != s[j]
  }

  /** Duplicates removed, the first of each kept in place. */
  function Dedupe(s: seq<string>): (r: seq<string>)
    ensures Elems(r) == Elems(s) && NoRepeats(r)
  {
    if s == [] then [] else
    var r := Dedupe(s[..|s| - 1]);
    assert s == s[..|s| - 1] + [s[|s| - 1]];
    ElemsAppend(s[..|s| - 1], s[|s| - 1]);
    ElemsAppend(r, s[|s| - 1]);
    if s[|s| - 1] in r then r else r + [s[|s| - 1]]
  }

  // ----- the handlers -----

  /** A fresh install approves everything the manifest declares. */
  function Installed(m: Manifest): Row {
    Row(m.services, m.services, {}, false, m.network, m.network, {})
  }

  /** The replace branch of `_install_bundle_from_path`. */
  function Replaced(r: Row, m: Manifest): Row {
    var adminExtras := Drop(r.allowedOrigins, Elems(r.requested));
    var newAllowed := Drop(m.network, r.revokedOrigins);
    Row(m.services, Drop(m.services, r.revokedServices), r.revokedServices, r.ungated && m.services == [],
        m.network, newAllowed + Drop(adminExtras, Elems(newAllowed)), r.revokedOrigins)
  }

  /** `admin_apps_services_update`. */
  function ServicesUpdated(r: Row, checked: seq<string>): Row {
    var declared := Elems(r.services);
    var final := Dedupe(Keep(checked, declared * ALLOWED_SERVICES));
    r.(allowedServices := final, revokedServices := (r.revokedServices - declared) + (declared - Elems(final)))
  }

  /** `admin_apps_network_update`. */
  function NetworkUpdated(r: Row, checked: seq<string>, extras: seq<string>): Row {
    var requested := Elems(r.requested);
    var ticked := Keep(checked, requested);
    r.(allowedOrigins := Dedupe(ticked + extras),
       revokedOrigins := (r.revokedOrigins - requested) + (requested - Elems(ticked)))
  }

  function Step(r: Row, e: Event): Row {
    match e
    case Replace(m) => Replaced(r, m)
    case ServicesForm(checked) => ServicesUpdated(r, checked)
    case NetworkForm(checked, extras) => NetworkUpdated(r, checked, extras)
  }

  function Run(r: Row, es: seq<Event>): Row {
    if es == [] then r else Step(Run(r, es[..|es| - 1]), es[|es| - 1])
  }

  // ----- handlers that overlap -----

  /** A column after an UPDATE that writes it only if it differs from what was loaded. */
  function Column<T(==)>(current: T, loaded: T, mine: T): T {
    if mine == loaded then current else mine
  }

  function Written(row: Row, loaded: Row, mine: Row): Row {
    Row(Column(row.services, loaded.services, mine.services),
        Column(row.allowedServices, loaded.allowedServices, mine.allowedServices),
        Column(row.revokedServices, loaded.revokedServices, mine.revokedServices),
        Column(row.ungated, loaded.ungated, mine.ungated),
        Column(row.requested, loaded.requested, mine.requested),
        Column(row.allowedOrigins, loaded.allowedOrigins, mine.allowedOrigins),
        Column(row.revokedOrigins, loaded.revokedOrigins, mine.revokedOrigins))
  }

  /** The row after a handler that loaded `loaded` commits. */
  function Merged(row: Row, loaded: Row, e: Event): Row {
    Written(row, loaded, Step(loaded, e))
  }

  predicate Commits(s: Site, a: Act) {
    a.Commit? && a.th in s.loaded
  }

  function Perform(s: Site, a: Act): Site {
    match a
    case Load(th) => if th in s.loaded then s else s.(loaded := s.loaded[th := s.row])
    case Commit(th, e) => if th in s.loaded then Site(Merged(s.row, s.loaded[th], e), s.loaded - {th}) else s
    case GiveUp(th) => s.(loaded := s.loaded - {th})
  }

  function Play(s: Site, acts: seq<Act>): Site {
    if acts == [] then s else Perform(Play(s, acts[..|acts| - 1]), acts[|acts| - 1])
  }

  /** The events committed, in the order of their commits. */
  function Committed(s: Site, acts: seq<Act>): seq<Event> {
    if acts == [] then [] else
    var before, a := acts[..|acts| - 1], acts[|acts| - 1];
    Committed(s, before) + if Commits(Play(s, before), a) then [a.event] else []
  }

  predicate ValidAct(a: Act) {
    a.Commit? && a.event.Replace? ==> ValidManifest(a.event.manifest)
  }

  ghost predicate ValidActs(acts: seq<Act>) {
    forall i :: 0 <= i < |acts| ==> ValidAct(acts[i])
  }

  ghost predicate ValidHistory(es: seq<Event>) {
    forall i :: 0 <= i < |es| && es[i].Replace? ==> ValidManifest(es[i].manifest)
  }

  /** What is asked of histories: no manifest names a service there is not. */
  lemma ValidMeans(acts: seq<Act>, es: seq<Event>)
    ensures ValidHistory(es) <==>
            forall i, s :: 0 <= i < |es| && es[i].Replace? && s in es[i].manifest.services ==>
                             s == "pdf" || s == "email" || s == "storage"
    ensures ValidActs(acts) <==>
            forall i, s :: 0 <= i < |acts| && acts[i].Commit? && acts[i].event.Replace? ==>
                             s in acts[i].event.manifest.services ==> s == "pdf" || s == "email" || s == "storage"
  {
    if ValidActs(acts) {
      assert forall i :: 0 <= i < |acts| ==> ValidAct(acts[i]);
    }
  }

  /** `_require_service` lets the call through. */
  predicate MayCall(r: Row, service: string) {
    (r.services == [] && r.ungated) || service in r.allowedServices
  }

  /** The handlers' loop with its `seen` set. */
  method DedupeLoop(s: seq<string>) returns (out: seq<string>)
    ensures out == Dedupe(s)
  {
    var seen: set<string> := {};
    out := [];
    for i := 0 to |s|
      invariant out == Dedupe(s[..i]) && seen == Elems(out)
    {
      assert s[..i + 1][..i] == s[..i];
      if s[i] !in seen {
        seen := seen + {s[i]};
        out := out + [s[i]];
      }
    }
    assert s[..|s|] == s;
  }

  /** The row of `portal/models.py`, updated in place. */
  class App {
    var services: seq<string>
    var allowedServices: seq<string>
    var revokedServices: set<string>
    var ungated: bool
    var requested: seq<string>
    var allowedOrigins: seq<string>
    var revokedOrigins: set<string>

    function Value(): Row
      reads this
    {
      Row(services, allowedServices, revokedServices, ungated, requested, allowedOrigins, revokedOrigins)
    }

    constructor (m: Manifest)
      ensures Value() == Installed(m)
    {
      services, allowedServices, revokedServices, ungated := m.services, m.services, {}, false;
      requested, allowedOrigins, revokedOrigins := m.network, m.network, {};
    }

    method Replace(m: Manifest)
      modifies this
      ensures Value() == Replaced(old(Value()), m)
    {
      var adminExtras := Drop(allowedOrigins, Elems(requested));
      var newAllowed := Drop(m.network, revokedOrigins);
      newAllowed := newAllowed + Drop(adminExtras, Elems(newAllowed));
      ungated := ungated && m.services == [];
      services := m.services;
      allowedServices := Drop(m.services, revokedServices);
      requested := m.network;
      allowedOrigins := newAllowed;
    }

    /** The flush of a handler's own copy: it writes the columns that differ from what it loaded. */
    method WriteBack(loaded: Row, mine: Row)
      modifies this
      ensures Value() == Written(old(Value()), loaded, mine)
    {
      services := Column(services, loaded.services, mine.services);
      allowedServices := Column(allowedServices, loaded.allowedServices, mine.allowedServices);
      revokedServices := Column(revokedServices, loaded.revokedServices, mine.revokedServices);
      ungated := Column(ungated, loaded.ungated, mine.ungated);
      requested := Column(requested, loaded.requested, mine.requested);
      allowedOrigins := Column(allowedOrigins, loaded.allowedOrigins, mine.allowedOrigins);
      revokedOrigins := Column(revokedOrigins, loaded.revokedOrigins, mine.revokedOrigins);
    }

    method UpdateServices(checked: seq<string>)
      modifies this
      ensures Value() == ServicesUpdated(old(Value()), checked)
    {
      var declared := Elems(services);
      var final := DedupeLoop(Keep(checked, declared * ALLOWED_SERVICES));
      allowedServices := final;
      revokedServices := (revokedServices - declared) + (declared - Elems(final));
    }

    method UpdateNetwork(checked: seq<string>, extras: seq<string>)
      modifies this
      ensures Value() == NetworkUpdated(old(Value()), checked, extras)
    {
      var ticked := Keep(checked, Elems(requested));
      allowedOrigins := DedupeLoop(ticked + extras);
      revokedOrigins := (revokedOrigins - Elems(requested)) + (Elems(requested) - Elems(ticked));
    }
  }

  /** A handler's copy is its own: taken when it loads, unless it has one, and given up when it commits or fails. */
  lemma CopiesAreApart(s: Site, a: Act, th: nat)
    ensures th in Perform(s, a).loaded <==>
            a == Load(th) || (th in s.loaded && !((a.Commit? || a.GiveUp?) && a.th == th))
    ensures th in Perform(s, a).loaded ==> Perform(s, a).loaded[th] == if th in s.loaded then s.loaded[th] else s.row
    ensures !Commits(s, a) ==> Perform(s, a).row == s.row
  {
  }

  // ----- handlers one after the other -----

  /** Every commit finds the row as its handler loaded it. */
  ghost predicate UpToDate(s: Site, acts: seq<Act>) {
    acts == [] ||
    var before, a := Play(s, acts[..|acts| - 1]), acts[|acts| - 1];
    UpToDate(s, acts[..|acts| - 1]) && (Commits(before, a) ==> before.loaded[a.th] == before.row)
  }

  lemma RunMore(r: Row, es: seq<Event>, e: Event)
    ensures Run(r, es + [e]) == Step(Run(r, es), e)
  {
    assert (es + [e])[..|es|] == es;
  }

  lemma MergedWithItself(r: Row, e: Event)
    ensures Merged(r, r, e) == Step(r, e)
  {
  }

  /** If commits are up to date, the handlers might as well run one after the other: what holds of `Run` holds here. */
  lemma {:induction false} UpToDateIsSequential(s: Site, acts: seq<Act>)
    requires UpToDate(s, acts)
    ensures Play(s, acts).row == Run(s.row, Committed(s, acts))
  {
    if acts != [] {
      var before, a := acts[..|acts| - 1], acts[|acts| - 1];
      UpToDateIsSequential(s, before);
      if Commits(Play(s, before), a) {
        RunMore(s.row, Committed(s, before), a.event);
        MergedWithItself(Play(s, before).row, a.event);
      } else {
        assert Committed(s, before) + [] == Committed(s, before);
      }
    }
  }

  /** The handlers under way that have loaded since the last commit. */
  function LoadedSince(s: Site, acts: seq<Act>): set<nat> {
    if acts == [] then {} else
    var before, a := acts[..|acts| - 1], acts[|acts| - 1];
    if Commits(Play(s, before), a) then {}
    else if a.Load? && a.th !in Play(s, before).loaded then LoadedSince(s, before) + {a.th}
    else if a.GiveUp? then LoadedSince(s, before) - {a.th}
    else LoadedSince(s, before)
  }

  /** Nothing commits between a load and its commit. */
  ghost predicate Undisturbed(s: Site, acts: seq<Act>) {
    acts == [] ||
    var before, a := acts[..|acts| - 1], acts[|acts| - 1];
    Undisturbed(s, before) && (Commits(Play(s, before), a) ==> a.th in LoadedSince(s, before))
  }

  lemma PlayMore(s: Site, acts: seq<Act>, a: Act)
    ensures Play(s, acts + [a]) == Perform(Play(s, acts), a)
    ensures LoadedSince(s, acts + [a]) ==
            if Commits(Play(s, acts), a) then {}
            else if a.Load? && a.th !in Play(s, acts).loaded then LoadedSince(s, acts) + {a.th}
            else if a.GiveUp? then LoadedSince(s, acts) - {a.th}
            else LoadedSince(s, acts)
  {
    assert (acts + [a])[..|acts|] == acts;
  }

  /** A handler that loads and then commits, with nothing in between, disturbs nothing and is not disturbed. */
  lemma LoadThenCommit(s: Site, acts: seq<Act>, th: nat, e: Event)
    requires th !in Play(s, acts).loaded
    ensures Undisturbed(s, [])
    ensures Undisturbed(s, acts) ==> Undisturbed(s, acts + [Load(th)] + [Commit(th, e)])
    ensures Play(s, acts + [Load(th)] + [Commit(th, e)]) == Site(Step(Play(s, acts).row, e), Play(s, acts).loaded)
  {
    var loading := acts + [Load(th)];
    PlayMore(s, acts, Load(th));
    PlayMore(s, loading, Commit(th, e));
    assert loading[..|acts|] == acts && (loading + [Commit(th, e)])[..|loading|] == loading;
    assert Play(s, loading).loaded - {th} == Play(s, acts).loaded;
    MergedWithItself(Play(s, acts).row, e);
  }

  lemma {:induction false} SinceIsCurrent(s: Site, acts: seq<Act>, th: nat)
    requires th in LoadedSince(s, acts)
    ensures th in Play(s, acts).loaded && Play(s, acts).loaded[th] == Play(s, acts).row
  {
    var before, a := acts[..|acts| - 1], acts[|acts| - 1];
    if th in LoadedSince(s, before) {
      SinceIsCurrent(s, before, th);
    }
  }

  /** Commits are up to date in particular if nothing commits between a load and its commit. */
  lemma {:induction false} UndisturbedIsUpToDate(s: Site, acts: seq<Act>)
    requires Undisturbed(s, acts)
    ensures UpToDate(s, acts)
  {
    if acts != [] {
      var before, a := acts[..|acts| - 1], acts[|acts| - 1];
      UndisturbedIsUpToDate(s, before);
      if Commits(Play(s, before), a) {
        SinceIsCurrent(s, before, a.th);
      }
    }
  }

  // ----- services -----

  /** Allowed is declared minus revoked. */
  ghost predicate ServicesAgree(r: Row) {
    Elems(r.services) <= ALLOWED_SERVICES && Elems(r.allowedServices) == Elems(r.services) - r.revokedServices
  }

  lemma {:induction false} ServicesAlwaysAgree(r: Row, es: seq<Event>)
    requires ServicesAgree(r) && ValidHistory(es)
    ensures ServicesAgree(Run(r, es))
  {
    if es != [] {
      ServicesAlwaysAgree(r, es[..|es| - 1]);
    }
  }

  /** The services the latest manifest declares. */
  function Declares(r: Row, es: seq<Event>, service: string): bool {
    if es == [] then service in r.services
    else if es[|es| - 1].Replace? then service in es[|es| - 1].manifest.services
    else Declares(r, es[..|es| - 1], service)
  }

  /** The last services form submitted while the service was declared left it unticked. */
  function LastRefused(r: Row, es: seq<Event>, service: string): bool {
    if es == [] then service in r.revokedServices else
    var before, e := es[..|es| - 1], es[|es| - 1];
    if e.ServicesForm? && Declares(r, before, service) then service !in e.checked
    else LastRefused(r, before, service)
  }

  lemma {:induction false} RevokedIsLastRefused(r: Row, es: seq<Event>, service: string)
    requires ServicesAgree(r) && ValidHistory(es)
    ensures service in Run(r, es).services <==> Declares(r, es, service)
    ensures service in Run(r, es).revokedServices <==> LastRefused(r, es, service)
  {
    if es != [] {
      var before := es[..|es| - 1];
      RevokedIsLastRefused(r, before, service);
      ServicesAlwaysAgree(r, before);
      assert service in Elems(Run(r, before).services) <==> service in Run(r, before).services;
    }
  }

  /**
   After any history of replaces and forms, a service is allowed exactly when the latest manifest declares it
   and the last services form submitted while it was declared had it ticked, or there was none.
   */
  lemma AllowedServiceIff(m: Manifest, es: seq<Event>, service: string)
    requires ValidManifest(m) && ValidHistory(es)
    ensures service in Run(Installed(m), es).allowedServices <==>
            Declares(Installed(m), es, service) && !LastRefused(Installed(m), es, service)
  {
    ServicesAlwaysAgree(Installed(m), es);
    RevokedIsLastRefused(Installed(m), es, service);
    var end := Run(Installed(m), es);
    assert service in Elems(end.allowedServices) <==> service in Elems(end.services) - end.revokedServices;
  }

  /** No replace among the events declares a service. */
  ghost predicate DeclareNothing(es: seq<Event>) {
    forall i :: 0 <= i < |es| && es[i].Replace? ==> es[i].manifest.services == []
  }

  lemma DeclareNothingMore(es: seq<Event>, e: Event)
    ensures DeclareNothing(es + [e]) <==> DeclareNothing(es) && (e.Replace? ==> e.manifest.services == [])
  {
    var all := es + [e];
    assert all[|es|] == e && forall i :: 0 <= i < |es| ==> all[i] == es[i];
  }

  /** Once gated, no outdated copy opens the app again. */
  lemma {:induction false} UngatedPlay(r: Row, acts: seq<Act>)
    ensures var s := Play(Site(r, map[]), acts);
            && (s.row.ungated <==> r.ungated && DeclareNothing(Committed(Site(r, map[]), acts)))
            && (s.row.ungated ==> forall th :: th in s.loaded ==> s.loaded[th].ungated)
            && (!r.ungated ==> forall th :: th in s.loaded ==> !s.loaded[th].ungated)
  {
    if acts != [] {
      var before, a := acts[..|acts| - 1], acts[|acts| - 1];
      UngatedPlay(r, before);
      if Commits(Play(Site(r, map[]), before), a) {
        DeclareNothingMore(Committed(Site(r, map[]), before), a.event);
      } else {
        assert Committed(Site(r, map[]), before) + [] == Committed(Site(r, map[]), before);
      }
    }
  }

  /**
   However the handlers overlap, an app is ungated at the end iff it was at the start and no replace since has
   declared a service.
   */
  lemma UngatedIff(r: Row, acts: seq<Act>)
    ensures Play(Site(r, map[]), acts).row.ungated <==> r.ungated && DeclareNothing(Committed(Site(r, map[]), acts))
  {
    UngatedPlay(r, acts);
  }

  /** So an app installed under gating can call a service exactly when it is allowed. */
  lemma FreshInstallIsGated(m: Manifest, acts: seq<Act>, service: string)
    ensures var row := Play(Site(Installed(m), map[]), acts).row;
            MayCall(row, service) <==> service in row.allowedServices
  {
    UngatedIff(Installed(m), acts);
  }

  lemma {:induction false} DeclaresNothingPlay(r: Row, acts: seq<Act>)
    requires r.services == [] && DeclareNothing(Committed(Site(r, map[]), acts))
    ensures var s := Play(Site(r, map[]), acts);
            s.row.services == [] && forall th :: th in s.loaded ==> s.loaded[th].services == []
  {
    if acts != [] {
      var before, a := acts[..|acts| - 1], acts[|acts| - 1];
      if Commits(Play(Site(r, map[]), before), a) {
        DeclareNothingMore(Committed(Site(r, map[]), before), a.event);
      } else {
        assert Committed(Site(r, map[]), before) + [] == Committed(Site(r, map[]), before);
      }
      DeclaresNothingPlay(r, before);
    }
  }

  /**
   An app from before gating: it may call everything until a replace declares a service, however the handlers
   overlap, and from then on what is allowed.
   */
  lemma GrandfatheredIff(r: Row, acts: seq<Act>, service: string)
    requires r.ungated && r.services == []
    ensures var row := Play(Site(r, map[]), acts).row;
            MayCall(row, service) <==>
            DeclareNothing(Committed(Site(r, map[]), acts)) || service in row.allowedServices
  {
    UngatedIff(r, acts);
    if DeclareNothing(Committed(Site(r, map[]), acts)) {
      DeclaresNothingPlay(r, acts);
    }
  }

  // ----- services, when handlers overlap -----

  ghost predicate ServiceAgrees(r: Row, x: string) {
    x in r.allowedServices <==> x in r.services && x !in r.revokedServices
  }

  /** The two rows grant the service alike. */
  predicate GrantAlike(l: Row, r: Row, x: string) {
    (x in l.services && x !in l.revokedServices) == (x in r.services && x !in r.revokedServices)
  }

  /**
   What a handler that loaded `l` may do to service `x` on row `r` without tearing the lists apart. If a replace
   writes both lists, its manifest's services must be revoked in the row as they were in the copy; if it
   writes one of them, that one must fit the other as it is now. A form fits the services as they are now.
   */
  predicate ServiceSafe(r: Row, l: Row, e: Event, x: string) {
    match e
    case Replace(m) =>
      if Drop(m.services, l.revokedServices) == l.allowedServices then
        m.services == l.services || x in r.revokedServices || (x in m.services <==> x in r.services)
      else if m.services == l.services then GrantAlike(l, r, x)
      else x in m.services ==> (x in l.revokedServices <==> x in r.revokedServices)
    case ServicesForm(checked) =>
      var mine := ServicesUpdated(l, checked);
      if mine.allowedServices == l.allowedServices then true
      else if mine.revokedServices == l.revokedServices then GrantAlike(l, r, x)
      else x in mine.revokedServices || (x in l.services <==> x in r.services)
    case NetworkForm(_, _) => true
  }

  /** The form's own result: it revokes what it does not allow, and with the old allowed list nothing new. */
  lemma FormResult(l: Row, checked: seq<string>)
    requires ServicesAgree(l)
    ensures var mine := ServicesUpdated(l, checked);
            && ServicesAgree(mine) && mine.services == l.services
            && (mine.allowedServices == l.allowedServices ==> mine.revokedServices == l.revokedServices)
  {
    var final := Dedupe(Keep(checked, Elems(l.services) * ALLOWED_SERVICES));
    assert Elems(final) <= Elems(l.services);
  }

  lemma FormAgreesIff(r: Row, l: Row, checked: seq<string>, x: string)
    requires ServiceAgrees(r, x) && ServicesAgree(l)
    ensures ServiceAgrees(Merged(r, l, ServicesForm(checked)), x) <==> ServiceSafe(r, l, ServicesForm(checked), x)
  {
    FormResult(l, checked);
    var mine := ServicesUpdated(l, checked);
    assert x in Elems(mine.allowedServices) <==> x in Elems(mine.services) - mine.revokedServices;
    assert x in Elems(l.allowedServices) <==> x in Elems(l.services) - l.revokedServices;
  }

  /** One service after a commit. */
  lemma ServiceAgreesAfterIff(r: Row, l: Row, e: Event, x: string)
    requires ServiceAgrees(r, x) && ServicesAgree(l)
    ensures ServiceAgrees(Merged(r, l, e), x) <==> ServiceSafe(r, l, e, x)
  {
    match e
    case Replace(m) =>
      assert x in Elems(Drop(m.services, l.revokedServices)) <==> x in Elems(m.services) - l.revokedServices;
      assert x in Elems(l.allowedServices) <==> x in Elems(l.services) - l.revokedServices;
    case ServicesForm(checked) => FormAgreesIff(r, l, checked, x);
    case NetworkForm(_, _) =>
  }

  ghost predicate AllServicesSafe(r: Row, l: Row, e: Event) {
    forall x :: ServiceSafe(r, l, e, x)
  }

  lemma AgreesPointwise(r: Row)
    requires Elems(r.services) <= ALLOWED_SERVICES
    ensures ServicesAgree(r) <==> forall x :: ServiceAgrees(r, x)
  {
    if forall x :: ServiceAgrees(r, x) {
      forall x ensures x in Elems(r.allowedServices) <==> x in Elems(r.services) - r.revokedServices {
        assert ServiceAgrees(r, x);
      }
    }
    if ServicesAgree(r) {
      forall x ensures ServiceAgrees(r, x) {
        assert x in Elems(r.allowedServices) <==> x in Elems(r.services) - r.revokedServices;
      }
    }
  }

  /** A commit on an outdated row keeps allowed at declared minus revoked if and only if it is safe for each service. */
  lemma ServicesAgreeAfterIff(r: Row, l: Row, e: Event)
    requires ServicesAgree(r) && ServicesAgree(l) && (e.Replace? ==> ValidManifest(e.manifest))
    ensures ServicesAgree(Merged(r, l, e)) <==> AllServicesSafe(r, l, e)
  {
    AgreesPointwise(r);
    AgreesPointwise(Merged(r, l, e));
    forall x ensures ServiceAgrees(Merged(r, l, e), x) <==> ServiceSafe(r, l, e, x) {
      ServiceAgreesAfterIff(r, l, e, x);
    }
  }

  ghost predicate AgreeThroughout(s: Site, acts: seq<Act>) {
    ServicesAgree(Play(s, acts).row) && (acts == [] || AgreeThroughout(s, acts[..|acts| - 1]))
  }

  ghost predicate SafeThroughout(s: Site, acts: seq<Act>) {
    acts == [] ||
    var before, a := Play(s, acts[..|acts| - 1]), acts[|acts| - 1];
    && SafeThroughout(s, acts[..|acts| - 1])
    && (Commits(before, a) ==> AllServicesSafe(before.row, before.loaded[a.th], a.event))
  }

  lemma {:induction false} CopiesAgree(s: Site, acts: seq<Act>, th: nat)
    requires s.loaded == map[] && AgreeThroughout(s, acts) && th in Play(s, acts).loaded
    ensures ServicesAgree(Play(s, acts).loaded[th])
  {
    var before := acts[..|acts| - 1];
    if th in Play(s, before).loaded {
      CopiesAgree(s, before, th);
    }
  }

  /**
   Along any history of overlapping handlers the allowed services are the declared ones minus the revoked ones
   throughout, if and only if every commit was safe on the row it found.
   */
  lemma {:induction false} AgreeThroughoutIff(r: Row, acts: seq<Act>)
    requires ServicesAgree(r) && ValidActs(acts)
    ensures AgreeThroughout(Site(r, map[]), acts) <==> SafeThroughout(Site(r, map[]), acts)
  {
    if acts != [] {
      var before, a := acts[..|acts| - 1], acts[|acts| - 1];
      AgreeThroughoutIff(r, before);
      var s := Play(Site(r, map[]), before);
      if AgreeThroughout(Site(r, map[]), before) && Commits(s, a) {
        CopiesAgree(Site(r, map[]), before, a.th);
        assert ValidAct(a);
        ServicesAgreeAfterIff(s.row, s.loaded[a.th], a.event);
      }
    }
  }

  /** No services form of the history ticks the service. */
  ghost predicate NobodyTicks(acts: seq<Act>, x: string) {
    forall i :: 0 <= i < |acts| && acts[i].Commit? && acts[i].event.ServicesForm? ==> x !in acts[i].event.checked
  }

  ghost predicate RefusedService(s: Site, x: string) {
    && x in s.row.revokedServices && x !in s.row.allowedServices
    && forall th :: th in s.loaded ==> x in s.loaded[th].revokedServices
  }

  /** A handler whose copy has the service revoked does not give it back. */
  lemma RefusedServiceStep(s: Site, a: Act, x: string)
    requires RefusedService(s, x) && (a.Commit? && a.event.ServicesForm? ==> x !in a.event.checked)
    ensures RefusedService(Perform(s, a), x)
  {
    if Commits(s, a) {
      var l := s.loaded[a.th];
      match a.event
      case Replace(m) =>
        assert x in Elems(Drop(m.services, l.revokedServices)) <==> x in Elems(m.services) - l.revokedServices;
      case ServicesForm(checked) =>
        var final := Dedupe(Keep(checked, Elems(l.services) * ALLOWED_SERVICES));
        assert x in Elems(final) <==> x in Elems(checked) * (Elems(l.services) * ALLOWED_SERVICES);
      case NetworkForm(_, _) =>
    }
  }

  lemma {:induction false} RefusedServiceRun(s: Site, acts: seq<Act>, x: string)
    requires RefusedService(s, x) && NobodyTicks(acts, x)
    ensures RefusedService(Play(s, acts), x)
  {
    if acts != [] {
      RefusedServiceRun(s, acts[..|acts| - 1], x);
      RefusedServiceStep(Play(s, acts[..|acts| - 1]), acts[|acts| - 1], x);
    }
  }

  /** A replace that loaded the row before the refusal can bring the service back. */
  function Reviving(l: Row, x: string): Manifest {
    Manifest(if l.allowedServices == [x] then [x, x] else [x], [])
  }

  lemma OldCopyRevives(s: Site, th: nat, x: string)
    requires th in s.loaded && x !in s.loaded[th].revokedServices
    ensures x in Perform(s, Commit(th, Replace(Reviving(s.loaded[th], x)))).row.allowedServices
  {
    var l := s.loaded[th];
    var m := Reviving(l, x);
    var kept := Drop(m.services, l.revokedServices);
    assert [x][..0] == [] && [x, x][..1] == [x];
    assert Drop([x], l.revokedServices) == [x] && Drop([x, x], l.revokedServices) == [x, x];
    assert kept == m.services && kept != l.allowedServices;
  }

  lemma PlayOne(s: Site, acts: seq<Act>)
    requires |acts| == 1
    ensures Play(s, acts) == Perform(s, acts[0])
  {
    assert acts[..0] == [];
  }

  /**
   A refused service stays out, whatever is replaced and whichever forms are sent that do not tick it, if and only
   if no handler under way loaded the row while the service was not revoked.
   */
  lemma ServiceRefusalIsFinalIff(s: Site, x: string)
    requires x in ALLOWED_SERVICES && x in s.row.revokedServices && x !in s.row.allowedServices
    ensures (forall acts :: ValidActs(acts) && NobodyTicks(acts, x) ==> x !in Play(s, acts).row.allowedServices) <==>
            forall th :: th in s.loaded ==> x in s.loaded[th].revokedServices
  {
    if forall th :: th in s.loaded ==> x in s.loaded[th].revokedServices {
      forall acts | ValidActs(acts) && NobodyTicks(acts, x) ensures x !in Play(s, acts).row.allowedServices {
        RefusedServiceRun(s, acts, x);
      }
    } else {
      var th :| th in s.loaded && x !in s.loaded[th].revokedServices;
      OldCopyRevives(s, th, x);
      var acts := [Commit(th, Replace(Reviving(s.loaded[th], x)))];
      PlayOne(s, acts);
      assert ValidActs(acts) && NobodyTicks(acts, x);
    }
  }

  lemma PlayFour(s: Site, acts: seq<Act>)
    requires |acts| == 4
    ensures Play(s, acts) == Perform(Perform(Perform(Perform(s, acts[0]), acts[1]), acts[2]), acts[3])
  {
    assert acts[..3][..2] == acts[..2] && acts[..2][..1] == acts[..1];
    PlayOne(s, acts[..1]);
    assert Play(s, acts[..2]) == Perform(Perform(s, acts[0]), acts[1]);
    assert Play(s, acts[..3]) == Perform(Play(s, acts[..2]), acts[2]);
  }

  lemma {:induction false} DropNothing(s: seq<string>)
    ensures Drop(s, {}) == s
  {
    if s != [] {
      DropNothing(s[..|s| - 1]);
      assert s == s[..|s| - 1] + [s[|s| - 1]];
    }
  }

  /** A replace that widens a row it loaded unrevoked writes the whole list, over a revocation made meanwhile. */
  lemma WideningReplace(row: Row, loaded: Row, m: Manifest)
    requires loaded.revokedServices == {} && |m.services| != |loaded.allowedServices|
    ensures Merged(row, loaded, Replace(m)).allowedServices == m.services
    ensures Merged(row, loaded, Replace(m)).revokedServices == row.revokedServices
  {
    DropNothing(m.services);
  }

  /** The row the services form leaves, of an app that declares pdf and email and had both. */
  lemma EmailIsRefused()
    ensures var r := Installed(Manifest(["pdf", "email"], []));
            var refused := ServicesUpdated(r, ["pdf"]);
            "email" in refused.revokedServices && refused.revokedServices != r.revokedServices
            && refused.services == r.services
  {
    var r := Installed(Manifest(["pdf", "email"], []));
    var refused := ServicesUpdated(r, ["pdf"]);
    assert r.services[1] == "email" && "email" !in ["pdf"];
    assert "email" in Elems(r.services) - Elems(refused.allowedServices);
    assert "email" in refused.revokedServices && "email" !in r.revokedServices;
  }

  /**
   Such a run: a replace loads the row, the services form refuses email, and the replace commits. Email is allowed
   and revoked.
   */
  lemma RefusedServiceComesBack(acts: seq<Act>)
    requires |acts| == 4 && acts[0] == Load(0) && acts[1] == Load(1) && acts[2] == Commit(1, ServicesForm(["pdf"]))
    requires acts[3] == Commit(0, Replace(Manifest(["pdf", "email", "storage"], [])))
    ensures var row := Play(Site(Installed(Manifest(["pdf", "email"], [])), map[]), acts).row;
            "email" in row.allowedServices && "email" in row.revokedServices
  {
    var r := Installed(Manifest(["pdf", "email"], []));
    PlayFour(Site(r, map[]), acts);
    var m := Manifest(["pdf", "email", "storage"], []);
    var refused := ServicesUpdated(r, ["pdf"]);
    EmailIsRefused();
    WideningReplace(refused, r, m);
    assert "email" == m.services[1];
  }

  // ----- origins -----

  /** What a row says of one origin. */
  datatype Standing = Standing(requested: bool, allowed: bool, revoked: bool)

  function StandingOf(r: Row, o: string): Standing {
    Standing(o in r.requested, o in r.allowedOrigins, o in r.revokedOrigins)
  }

  /** How one event moves one origin. */
  function Moved(s: Standing, e: Event, o: string): Standing {
    match e
    case Replace(m) =>
      var asks := o in m.network;
      Standing(asks, (asks && !s.revoked) || (s.allowed && !s.requested), s.revoked)
    case ServicesForm(_) => s
    case NetworkForm(checked, extras) =>
      var ticked := s.requested && o in checked;
      Standing(s.requested, ticked || o in extras, if s.requested then !ticked else s.revoked)
  }

  function MovedAll(s: Standing, es: seq<Event>, o: string): Standing {
    if es == [] then s else Moved(MovedAll(s, es[..|es| - 1], o), es[|es| - 1], o)
  }

  lemma StepMoves(r: Row, e: Event, o: string)
    ensures StandingOf(Step(r, e), o) == Moved(StandingOf(r, o), e, o)
  {
    match e
    case Replace(m) =>
      var adminExtras := Drop(r.allowedOrigins, Elems(r.requested));
      var newAllowed := Drop(m.network, r.revokedOrigins);
      var kept := Drop(adminExtras, Elems(newAllowed));
      assert o in Elems(kept) <==> o in kept;
      assert o in Elems(newAllowed) <==> o in newAllowed;
      assert o in Elems(adminExtras) <==> o in Elems(r.allowedOrigins) - Elems(r.requested);
    case NetworkForm(checked, extras) =>
      var ticked := Keep(checked, Elems(r.requested));
      assert o in Elems(ticked) <==> o in Elems(checked) * Elems(r.requested);
      assert o in Elems(Dedupe(ticked + extras)) <==> o in ticked + extras;
    case _ =>
  }

  /** The lists of the row are, origin by origin, one three-bit machine. */
  lemma {:induction false} OriginsMoveAlone(r: Row, es: seq<Event>, o: string)
    ensures StandingOf(Run(r, es), o) == MovedAll(StandingOf(r, o), es, o)
  {
    if es != [] {
      OriginsMoveAlone(r, es[..|es| - 1], o);
      StepMoves(Run(r, es[..|es| - 1]), es[|es| - 1], o);
    }
  }

  /** Everything requested and not revoked is allowed, after any history. */
  lemma {:induction false} RequestedUnrevokedIsAllowed(m: Manifest, es: seq<Event>, o: string)
    ensures var r := Run(Installed(m), es);
            o in r.requested && o !in r.revokedOrigins ==> o in r.allowedOrigins
  {
    if es != [] {
      RequestedUnrevokedIsAllowed(m, es[..|es| - 1], o);
      StepMoves(Run(Installed(m), es[..|es| - 1]), es[|es| - 1], o);
    }
  }

  /** No form of the history ticks or types the origin. */
  ghost predicate NeverGranted(es: seq<Event>, o: string) {
    forall i :: 0 <= i < |es| && es[i].NetworkForm? ==> o !in es[i].checked && o !in es[i].extras
  }

  lemma {:induction false} RefusedStaysOut(s: Standing, es: seq<Event>, o: string)
    requires s.revoked && !s.allowed && NeverGranted(es, o)
    ensures MovedAll(s, es, o).revoked && !MovedAll(s, es, o).allowed
  {
    if es != [] {
      RefusedStaysOut(s, es[..|es| - 1], o);
    }
  }

  /**
   A refusal outlives every manifest: an origin that is requested, and that a network form leaves unticked and
   untyped, stays out through every later run of replaces and forms until one of the forms grants it.
   */
  lemma RefusedOriginStaysOut(m: Manifest, es: seq<Event>, checked: seq<string>, extras: seq<string>,
                              rest: seq<Event>, o: string)
    requires o in Run(Installed(m), es).requested && o !in checked && o !in extras
    requires forall i :: 0 <= i < |rest| && rest[i].NetworkForm? ==> o !in rest[i].checked && o !in rest[i].extras
    ensures o !in Run(Step(Run(Installed(m), es), NetworkForm(checked, extras)), rest).allowedOrigins
  {
    var r := Run(Installed(m), es);
    StepMoves(r, NetworkForm(checked, extras), o);
    var r' := Step(r, NetworkForm(checked, extras));
    OriginsMoveAlone(r', rest, o);
    RefusedStaysOut(StandingOf(r', o), rest, o);
  }

  /** Replaces only, none of whose manifests names the origin. */
  ghost predicate NeverNamed(es: seq<Event>, o: string) {
    forall i :: 0 <= i < |es| ==> es[i].Replace? && o !in es[i].manifest.network
  }

  lemma {:induction false} UnnamedRun(s: Standing, es: seq<Event>, o: string)
    requires es != [] && NeverNamed(es, o)
    ensures MovedAll(s, es, o) == Standing(false, s.allowed && !s.requested, s.revoked)
  {
    if |es| > 1 {
      UnnamedRun(s, es[..|es| - 1], o);
    } else {
      assert es[..0] == [];
    }
  }

  /**
   An origin typed into the extras box survives every later run of replaces whose manifests never name it,
   if and only if it was not a requested one when it was typed. A typed origin that was
   requested counts as the manifest's own and goes with the first replace that drops it.
   */
  lemma TypedExtraSurvivesIff(r: Row, checked: seq<string>, extras: seq<string>, rest: seq<Event>, o: string)
    requires o in extras && rest != []
    requires forall i :: 0 <= i < |rest| ==> rest[i].Replace? && o !in rest[i].manifest.network
    ensures o in Run(Step(r, NetworkForm(checked, extras)), rest).allowedOrigins <==> o !in r.requested
  {
    StepMoves(r, NetworkForm(checked, extras), o);
    OriginsMoveAlone(Step(r, NetworkForm(checked, extras)), rest, o);
    UnnamedRun(StandingOf(Step(r, NetworkForm(checked, extras)), o), rest, o);
  }

  /**
   The overlap of allowed and revoked: a refused origin that the manifest has since dropped, typed in
   as an extra, outlives one replace that asks for it again, and is out after the second.
   */
  lemma TypedButRevokedLastsOneReplace(r: Row, checked: seq<string>, extras: seq<string>, a: Manifest, b: Manifest,
                                       o: string)
    requires o !in r.requested && o in r.revokedOrigins && o in extras && o in a.network && o in b.network
    ensures var typed := Step(r, NetworkForm(checked, extras));
            && o in Replaced(typed, a).allowedOrigins && o in Replaced(typed, a).revokedOrigins
            && o !in Replaced(Replaced(typed, a), b).allowedOrigins
  {
    var typed := Step(r, NetworkForm(checked, extras));
    StepMoves(r, NetworkForm(checked, extras), o);
    StepMoves(typed, Replace(a), o);
    StepMoves(Replaced(typed, a), Replace(b), o);
  }

  // ----- origins, when handlers overlap -----

  /** Requested and not revoked means allowed. */
  predicate OriginAgrees(r: Row, o: string) {
    o in r.requested && o !in r.revokedOrigins ==> o in r.allowedOrigins
  }

  /** Typed by an admin: allowed without being asked for. */
  predicate IsExtra(r: Row, o: string) {
    o in r.allowedOrigins && o !in r.requested
  }

  /** The same for one origin as `ServiceSafe` is for a service. */
  predicate OriginSafe(r: Row, l: Row, e: Event, o: string) {
    var mine := Step(l, e);
    match e
    case Replace(m) =>
      if mine.allowedOrigins == l.allowedOrigins then
        m.network == l.requested || (o in m.network && o !in r.revokedOrigins ==> o in r.allowedOrigins)
      else if m.network == l.requested then
        o in r.requested && o !in r.revokedOrigins ==> (o in l.requested && o !in l.revokedOrigins) || IsExtra(l, o)
      else o in m.network && o in l.revokedOrigins && !IsExtra(l, o) ==> o in r.revokedOrigins
    case ServicesForm(_) => true
    case NetworkForm(checked, extras) =>
      var granted := (o in l.requested && o in checked) || o in extras;
      if mine.allowedOrigins == l.allowedOrigins then
        mine.revokedOrigins == l.revokedOrigins ||
        (o in r.requested && !(if o in l.requested then o !in checked else o in l.revokedOrigins) ==>
           o in r.allowedOrigins)
      else if mine.revokedOrigins == l.revokedOrigins then o in r.requested && o !in r.revokedOrigins ==> granted
      else o in r.requested && o !in l.requested ==> o in l.revokedOrigins || granted
  }

  /**
   A commit on an outdated row keeps an origin that is requested and not revoked allowed, if and only if it is
   safe for the origin.
   */
  lemma OriginAgreesAfterIff(r: Row, l: Row, e: Event, o: string)
    requires OriginAgrees(r, o)
    ensures OriginAgrees(Merged(r, l, e), o) <==> OriginSafe(r, l, e, o)
  {
    StepMoves(l, e, o);
    assert StandingOf(Step(l, e), o) == Moved(StandingOf(l, o), e, o);
  }

  ghost predicate OriginThroughout(s: Site, acts: seq<Act>, o: string) {
    OriginAgrees(Play(s, acts).row, o) && (acts == [] || OriginThroughout(s, acts[..|acts| - 1], o))
  }

  ghost predicate OriginSafeThroughout(s: Site, acts: seq<Act>, o: string) {
    acts == [] ||
    var before, a := Play(s, acts[..|acts| - 1]), acts[|acts| - 1];
    OriginSafeThroughout(s, acts[..|acts| - 1], o)
    && (Commits(before, a) ==> OriginSafe(before.row, before.loaded[a.th], a.event, o))
  }

  /** Along any history of overlapping handlers, that holds throughout if and only if every commit was safe. */
  lemma {:induction false} OriginThroughoutIff(r: Row, acts: seq<Act>, o: string)
    requires OriginAgrees(r, o)
    ensures OriginThroughout(Site(r, map[]), acts, o) <==> OriginSafeThroughout(Site(r, map[]), acts, o)
  {
    if acts != [] {
      var before, a := acts[..|acts| - 1], acts[|acts| - 1];
      OriginThroughoutIff(r, before, o);
      var s := Play(Site(r, map[]), before);
      if OriginThroughout(Site(r, map[]), before, o) && Commits(s, a) {
        OriginAgreesAfterIff(s.row, s.loaded[a.th], a.event, o);
      }
    }
  }

  /** No network form of the history ticks or types the origin. */
  ghost predicate NobodyGrants(acts: seq<Act>, o: string) {
    forall i :: 0 <= i < |acts| && acts[i].Commit? && acts[i].event.NetworkForm? ==>
                  o !in acts[i].event.checked && o !in acts[i].event.extras
  }

  /** The copy has the origin revoked, and not as an extra besides. */
  predicate Barred(l: Row, o: string) {
    o in l.revokedOrigins && !IsExtra(l, o)
  }

  ghost predicate Out(s: Site, o: string) {
    && o in s.row.revokedOrigins && o !in s.row.allowedOrigins
    && forall th :: th in s.loaded ==> Barred(s.loaded[th], o)
  }

  /** A handler whose copy bars the origin does not let it in. */
  lemma OutStep(s: Site, a: Act, o: string)
    requires Out(s, o)
    requires a.Commit? && a.event.NetworkForm? ==> o !in a.event.checked && o !in a.event.extras
    ensures Out(Perform(s, a), o)
  {
    if Commits(s, a) {
      StepMoves(s.loaded[a.th], a.event, o);
      assert StandingOf(Step(s.loaded[a.th], a.event), o) == Moved(StandingOf(s.loaded[a.th], o), a.event, o);
    }
  }

  lemma {:induction false} OutRun(s: Site, acts: seq<Act>, o: string)
    requires Out(s, o) && NobodyGrants(acts, o)
    ensures Out(Play(s, acts), o)
  {
    if acts != [] {
      OutRun(s, acts[..|acts| - 1], o);
      OutStep(Play(s, acts[..|acts| - 1]), acts[|acts| - 1], o);
    }
  }

  /** A string longer than all of the set. */
  lemma {:induction false} SomeFresh(taken: set<string>) returns (f: string)
    ensures forall t :: t in taken ==> |t| < |f|
  {
    f := "a";
    if taken != {} {
      var t :| t in taken;
      var longer := SomeFresh(taken - {t});
      f := longer + t + "a";
      assert forall u :: u in taken ==> u == t || u in taken - {t};
    }
  }

  /** A manifest that asks for a new origin is written, whatever else it asks for. */
  lemma FreshIsWritten(l: Row, m: Manifest, f: string, o: string)
    requires f in m.network && f !in l.revokedOrigins && f !in l.allowedOrigins
    ensures forall r :: Merged(r, l, Replace(m)).allowedOrigins == Step(l, Replace(m)).allowedOrigins
    ensures o in Step(l, Replace(m)).allowedOrigins <==> (o in m.network && o !in l.revokedOrigins) || IsExtra(l, o)
  {
    StepMoves(l, Replace(m), f);
    StepMoves(l, Replace(m), o);
    assert StandingOf(Step(l, Replace(m)), f).allowed;
    assert StandingOf(Step(l, Replace(m)), o) == Moved(StandingOf(l, o), Replace(m), o);
  }

  /** A replace that loaded the row before the refusal, or while the origin was an extra, can let it in. */
  lemma OldCopyLetsIn(s: Site, th: nat, o: string) returns (act: Act)
    requires th in s.loaded && !Barred(s.loaded[th], o)
    ensures act.Commit? && act.event.Replace? && o in Perform(s, act).row.allowedOrigins
  {
    var l := s.loaded[th];
    var f := SomeFresh(l.revokedOrigins + Elems(l.allowedOrigins) + {o});
    assert f !in l.revokedOrigins + Elems(l.allowedOrigins) + {o};
    var m := Manifest([], [o, f]);
    assert m.network[0] == o && m.network[1] == f;
    FreshIsWritten(l, m, f, o);
    act := Commit(th, Replace(m));
  }

  /**
   A refused origin stays out, whatever is replaced and whichever forms are sent that do not grant it, if and only
   if every handler under way has loaded the row with the origin revoked and not among the extras.
   */
  lemma OriginRefusalIsFinalIff(s: Site, o: string)
    requires o in s.row.revokedOrigins && o !in s.row.allowedOrigins
    ensures (forall acts :: NobodyGrants(acts, o) ==> o !in Play(s, acts).row.allowedOrigins) <==>
            forall th :: th in s.loaded ==> Barred(s.loaded[th], o)
  {
    if forall th :: th in s.loaded ==> Barred(s.loaded[th], o) {
      forall acts | NobodyGrants(acts, o) ensures o !in Play(s, acts).row.allowedOrigins {
        OutRun(s, acts, o);
      }
    } else {
      var th :| th in s.loaded && !Barred(s.loaded[th], o);
      var act := OldCopyLetsIn(s, th, o);
      PlayOne(s, [act]);
      assert NobodyGrants([act], o);
    }
  }

  /** The history commits nothing but replaces whose manifests do not name the origin. */
  ghost predicate NobodyNames(acts: seq<Act>, o: string) {
    forall i :: 0 <= i < |acts| && acts[i].Commit? ==> acts[i].event.Replace? && o !in acts[i].event.manifest.network
  }

  ghost predicate ExtraEverywhere(s: Site, o: string) {
    IsExtra(s.row, o) && forall th :: th in s.loaded ==> IsExtra(s.loaded[th], o)
  }

  lemma ExtraStep(s: Site, a: Act, o: string)
    requires ExtraEverywhere(s, o)
    requires a.Commit? ==> a.event.Replace? && o !in a.event.manifest.network
    ensures ExtraEverywhere(Perform(s, a), o)
  {
    if Commits(s, a) {
      StepMoves(s.loaded[a.th], a.event, o);
      assert StandingOf(Step(s.loaded[a.th], a.event), o) == Moved(StandingOf(s.loaded[a.th], o), a.event, o);
    }
  }

  lemma {:induction false} ExtraRun(s: Site, acts: seq<Act>, o: string)
    requires ExtraEverywhere(s, o) && NobodyNames(acts, o)
    ensures ExtraEverywhere(Play(s, acts), o)
  {
    if acts != [] {
      ExtraRun(s, acts[..|acts| - 1], o);
      ExtraStep(Play(s, acts[..|acts| - 1]), acts[|acts| - 1], o);
    }
  }

  lemma OldCopyDrops(s: Site, th: nat, o: string) returns (act: Act)
    requires th in s.loaded && !IsExtra(s.loaded[th], o)
    ensures act.Commit? && act.event.Replace? && o !in act.event.manifest.network
    ensures o !in Perform(s, act).row.allowedOrigins
  {
    var l := s.loaded[th];
    var f := SomeFresh(l.revokedOrigins + Elems(l.allowedOrigins) + {o});
    assert f !in l.revokedOrigins + Elems(l.allowedOrigins) + {o};
    var m := Manifest([], [f]);
    assert m.network[0] == f;
    FreshIsWritten(l, m, f, o);
    act := Commit(th, Replace(m));
  }

  /** A handler that can still load the row. */
  lemma {:induction false} SomeIdle(ths: set<nat>) returns (th: nat)
    ensures forall k :: k in ths ==> k < th
  {
    th := 0;
    if ths != {} {
      var k :| k in ths;
      var above := SomeIdle(ths - {k});
      th := if above > k then above else k + 1;
      assert forall j :: j in ths ==> j == k || j in ths - {k};
    }
  }

  lemma PlayTwo(s: Site, acts: seq<Act>)
    requires |acts| == 2
    ensures Play(s, acts) == Perform(Perform(s, acts[0]), acts[1])
  {
    PlayOne(s, acts[..1]);
  }

  /**
   An allowed origin outlives every further history of overlapping replaces that never name it, if and only if it
   is an extra now and was one when each handler under way loaded the row.
   */
  lemma ExtraSurvivesIff(s: Site, o: string)
    requires o in s.row.allowedOrigins
    ensures (forall acts :: NobodyNames(acts, o) ==> o in Play(s, acts).row.allowedOrigins) <==> ExtraEverywhere(s, o)
  {
    if ExtraEverywhere(s, o) {
      forall acts | NobodyNames(acts, o) ensures o in Play(s, acts).row.allowedOrigins {
        ExtraRun(s, acts, o);
      }
    } else if !IsExtra(s.row, o) {
      var th := SomeIdle(s.loaded.Keys);
      assert th !in s.loaded.Keys;
      var act := OldCopyDrops(Perform(s, Load(th)), th, o);
      PlayTwo(s, [Load(th), act]);
      assert NobodyNames([Load(th), act], o);
    } else {
      var th :| th in s.loaded && !IsExtra(s.loaded[th], o);
      var act := OldCopyDrops(s, th, o);
      PlayOne(s, [act]);
      assert NobodyNames([act], o);
    }
  }

  /** A replace loads the row, the network form refuses its one origin, and the replace commits: the origin is back. */
  lemma RefusedOriginComesBack(acts: seq<Act>)
    requires |acts| == 4 && acts[0] == Load(0) && acts[1] == Load(1) && acts[2] == Commit(1, NetworkForm([], []))
    requires acts[3] == Commit(0, Replace(Manifest([], ["a", "b"])))
    ensures var row := Play(Site(Installed(Manifest([], ["a"])), map[]), acts).row;
            "a" in row.requested && "a" in row.revokedOrigins && "a" in row.allowedOrigins
  {
    var r, m := Installed(Manifest([], ["a"])), Manifest([], ["a", "b"]);
    PlayFour(Site(r, map[]), acts);
    StepMoves(r, NetworkForm([], []), "a");
    assert r.requested[0] == "a" && m.network[0] == "a" && m.network[1] == "b" && "b" !in r.allowedOrigins;
    assert StandingOf(NetworkUpdated(r, [], []), "a") == Standing(true, false, true);
    FreshIsWritten(r, m, "b", "a");
  }

  /** The reverse: the form clears the refusal while the replace is under way, and the origin stays out unrevoked. */
  lemma ClearedOriginStaysOut(r: Row, acts: seq<Act>)
    requires r == NetworkUpdated(Installed(Manifest([], ["a"])), [], [])
    requires |acts| == 4 && acts[0] == Load(0) && acts[1] == Load(1) && acts[2] == Commit(1, NetworkForm(["a"], []))
    requires acts[3] == Commit(0, Replace(Manifest([], ["a", "b"])))
    ensures !OriginAgrees(Play(Site(r, map[]), acts).row, "a")
  {
    var first, m := Installed(Manifest([], ["a"])), Manifest([], ["a", "b"]);
    PlayFour(Site(r, map[]), acts);
    StepMoves(first, NetworkForm([], []), "a");
    StepMoves(first, NetworkForm([], []), "b");
    assert first.requested[0] == "a" && m.network[0] == "a" && m.network[1] == "b" && "b" !in first.requested;
    StepMoves(r, NetworkForm(["a"], []), "a");
    assert ["a"][0] == "a";
    assert StandingOf(r, "a") == Standing(true, false, true) && StandingOf(r, "b") == Standing(false, false, false);
    assert StandingOf(NetworkUpdated(r, ["a"], []), "a") == Standing(true, true, false);
    FreshIsWritten(r, m, "b", "a");
  }
}
