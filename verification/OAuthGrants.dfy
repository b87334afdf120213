/**
 `portal/oauth.py`: authorization codes, refresh-token rotation and revocation.

 Every exchange is three separate transactions: read the row, claim it with one conditional
 DELETE or UPDATE, then insert the new token pair (`_issue`). `Apply` lets any number of threads take
 these steps in any order, together with consent, revocation, pruning, sign-out and crashes.
 Random secrets are fresh numbers drawn from `next`; a code's number stands for its hash.

 `origin` on a token row and in a claimed thread names the code a grant descends from. The tables
 have no such column: it is bookkeeping of the model, and no step reads it to decide anything.
 */
module OAuthGrants {

  const ACCESS_TTL := 3600
  const REFRESH_TTL := 30 * 24 * 3600
  const CODE_TTL := 60

  datatype Code = Code(client: nat, user: nat, expires: int)

  datatype Token = Token(
    access: nat, refresh: nat, client: nat, user: nat,
    accessExpires: int, refreshExpires: int, revoked: bool, origin: nat)

  /** The committed tables: codes by hash, token rows by row id. */
  datatype Tables = Tables(codes: map<nat, Code>, tokens: map<nat, Token>, next: nat)

  // ----- single SQL statements -----

  function InsertCode(t: Tables, client: nat, user: nat, now: int): Tables {
    t.(codes := t.codes[t.next := Code(client, user, now + CODE_TTL)], next := t.next + 1)
  }

  /** `DELETE … WHERE code_hash = :h`. */
  function DeleteCode(t: Tables, code: nat): Tables {
    t.(codes := t.codes - {code})
  }

  /** The unrevoked rows an `UPDATE … WHERE refresh_token_hash = :h AND revoked_at IS NULL` changes. */
  function ClaimedRows(t: Tables, refresh: nat): set<nat> {
    set r | r in t.tokens && t.tokens[r].refresh == refresh && !t.tokens[r].revoked
  }

  /** The unrevoked rows a `revoke_token` changes: the hash may be of either token of the pair. */
  function RevokedRows(t: Tables, hash: nat): set<nat> {
    set r | r in t.tokens && (t.tokens[r].access == hash || t.tokens[r].refresh == hash) && !t.tokens[r].revoked
  }

  function SetRevoked(t: Tables, rows: set<nat>): Tables {
    t.(tokens := map r | r in t.tokens :: if r in rows then t.tokens[r].(revoked := true) else t.tokens[r])
  }

  /** `_issue`: a new row, its id and both secrets fresh. */
  function InsertToken(t: Tables, client: nat, user: nat, origin: nat, now: int): Tables {
    t.(tokens := t.tokens[t.next :=
         Token(t.next + 1, t.next + 2, client, user, now + ACCESS_TTL, now + REFRESH_TTL, false, origin)],
       next := t.next + 3)
  }

  /** `DELETE` of every code and token of one user, in one transaction (sign-out, demotion, deletion). */
  function DeleteUser(t: Tables, user: nat): Tables {
    t.(codes := map c | c in t.codes && t.codes[c].user != user :: t.codes[c],
       tokens := map r | r in t.tokens && t.tokens[r].user != user :: t.tokens[r])
  }

  /** `prune_oauth`. */
  function Prune(t: Tables, now: int): Tables {
    t.(codes := map c | c in t.codes && t.codes[c].expires >= now :: t.codes[c],
       tokens := map r | r in t.tokens && t.tokens[r].refreshExpires >= now :: t.tokens[r])
  }

  /** A row a `SELECT … WHERE refresh_token_hash = :h` may return. */
  ghost predicate RowOfRefresh(t: Tables, r: nat, refresh: nat) {
    r in t.tokens && t.tokens[r].refresh == refresh
  }

  /** `load_access_token`: row `r` of the bearer `access` is unrevoked and unexpired. */
  ghost predicate Accepts(t: Tables, r: nat, access: nat, now: int) {
    && r in t.tokens && t.tokens[r].access == access
    && !t.tokens[r].revoked && !(t.tokens[r].accessExpires < now)
  }

  // ----- threads -----

  datatype Thread =
    | SawCode(code: nat, client: nat, user: nat)
    | SawRefresh(refresh: nat, client: nat, user: nat)
    | Claimed(origin: nat, client: nat, user: nat)

  /** Threads in the middle of an exchange; a thread that is not listed is idle. */
  datatype State = State(t: Tables, threads: map<nat, Thread>)

  datatype Action =
    | Consent(client: nat, user: nat, now: int)
    | ReadCode(th: nat, code: nat, client: nat)
    | ClaimCode(th: nat)
    | ReadRefresh(th: nat, row: nat, client: nat)
    | ClaimRefresh(th: nat)
    | Issue(th: nat, now: int)
    | Crash(th: nat)
    | Revoke(hash: nat)
    | SignOut(user: nat)
    | PruneAt(now: int)

  function Init(): State {
    State(Tables(map[], map[], 0), map[])
  }

  function Idle(s: State, th: nat): State {
    s.(threads := s.threads - {th})
  }

  predicate HonoursCode(s: State, a: Action) {
    a.ClaimCode? && a.th in s.threads && s.threads[a.th].SawCode? && s.threads[a.th].code in s.t.codes
  }

  predicate HonoursRefresh(s: State, a: Action) {
    a.ClaimRefresh? && a.th in s.threads && s.threads[a.th].SawRefresh?
    && |ClaimedRows(s.t, s.threads[a.th].refresh)| == 1
  }

  lemma OneElement(rows: set<nat>)
    requires |rows| == 1
    ensures exists r :: rows == {r}
  {
    var r :| r in rows;
    assert |rows - {r}| == 0;
    assert rows == {r};
  }

  function TheRow(rows: set<nat>): nat
    requires |rows| == 1
  {
    OneElement(rows);
    var r :| r in rows; r
  }

  /** One step. An action whose thread is not at that point of its code does nothing. */
  function Apply(s: State, a: Action): State {
    match a
    case Consent(client, user, now) => s.(t := InsertCode(s.t, client, user, now))
    case ReadCode(th, code, client) =>
      if th !in s.threads && code in s.t.codes && s.t.codes[code].client == client then
        s.(threads := s.threads[th := SawCode(code, client, s.t.codes[code].user)])
      else s
    case ClaimCode(th) =>
      if th in s.threads && s.threads[th].SawCode? then
        var w := s.threads[th];
        if w.code in s.t.codes then
          State(DeleteCode(s.t, w.code), s.threads[th := Claimed(w.code, w.client, w.user)])
        else Idle(s, th)
      else s
    case ReadRefresh(th, row, client) =>
      if th !in s.threads && row in s.t.tokens && !s.t.tokens[row].revoked && s.t.tokens[row].client == client then
        s.(threads := s.threads[th := SawRefresh(s.t.tokens[row].refresh, client, s.t.tokens[row].user)])
      else s
    case ClaimRefresh(th) =>
      if th in s.threads && s.threads[th].SawRefresh? then
        var w := s.threads[th];
        var rows := ClaimedRows(s.t, w.refresh);
        var t' := SetRevoked(s.t, rows);
        if |rows| == 1 then
          State(t', s.threads[th := Claimed(s.t.tokens[TheRow(rows)].origin, w.client, w.user)])
        else Idle(s.(t := t'), th)
      else s
    case Issue(th, now) =>
      if th in s.threads && s.threads[th].Claimed? then
        var w := s.threads[th];
        Idle(s.(t := InsertToken(s.t, w.client, w.user, w.origin, now)), th)
      else s
    case Crash(th) => Idle(s, th)
    case Revoke(hash) => s.(t := SetRevoked(s.t, RevokedRows(s.t, hash)))
    case SignOut(user) => s.(t := DeleteUser(s.t, user))
    case PruneAt(now) => s.(t := Prune(s.t, now))
  }

  function Run(s: State, acts: seq<Action>): State {
    if acts == [] then s else Apply(Run(s, acts[..|acts| - 1]), acts[|acts| - 1])
  }

  // ----- who holds a grant -----

  /** What can still turn into, or is, a live token pair descending from a code. */
  datatype Holder = CodeRow | InFlight(th: nat) | LiveRow(r: nat)

  predicate Holds(s: State, code: nat, h: Holder) {
    match h
    case CodeRow => code in s.t.codes
    case InFlight(th) => th in s.threads && s.threads[th].Claimed? && s.threads[th].origin == code
    case LiveRow(r) => r in s.t.tokens && s.t.tokens[r].origin == code && !s.t.tokens[r].revoked
  }

  function Holders(s: State, code: nat): set<Holder> {
    (if code in s.t.codes then {CodeRow} else {})
    + (set th | th in s.threads && Holds(s, code, InFlight(th)) :: InFlight(th))
    + (set r | r in s.t.tokens && Holds(s, code, LiveRow(r)) :: LiveRow(r))
  }

  ghost predicate Unused(s: State, code: nat) {
    forall h :: !Holds(s, code, h)
  }

  ghost predicate AtMostOne(s: State, code: nat) {
    forall g, h :: Holds(s, code, g) && Holds(s, code, h) ==> g == h
  }

  /** Every number in the tables and threads was drawn before `next`. */
  ghost predicate FreshTables(t: Tables) {
    && (forall c :: c in t.codes ==> c < t.next)
    && (forall r :: r in t.tokens ==>
                      && r < t.next && t.tokens[r].access < t.next
                      && t.tokens[r].refresh < t.next && t.tokens[r].origin < t.next)
  }

  ghost predicate FreshThread(w: Thread, next: nat) {
    match w
    case SawCode(code, _, _) => code < next
    case SawRefresh(refresh, _, _) => refresh < next
    case Claimed(origin, _, _) => origin < next
  }

  ghost predicate Fresh(s: State) {
    FreshTables(s.t) && forall th :: th in s.threads ==> FreshThread(s.threads[th], s.t.next)
  }

  /** No two rows share a secret. */
  ghost predicate OneRowEach(t: Tables) {
    forall q, r :: q in t.tokens && r in t.tokens && q != r ==>
                     t.tokens[q].refresh != t.tokens[r].refresh && t.tokens[q].access != t.tokens[r].access
                     && t.tokens[q].access != t.tokens[r].refresh
  }

  lemma FreshStep(s: State, a: Action)
    requires Fresh(s)
    ensures Fresh(Apply(s, a)) && Apply(s, a).t.next >= s.t.next
  {
    match a
    case ClaimRefresh(th) =>
      if th in s.threads && s.threads[th].SawRefresh? {
        var rows := ClaimedRows(s.t, s.threads[th].refresh);
        assert FreshTables(SetRevoked(s.t, rows));
      }
    case Revoke(hash) =>
      assert FreshTables(SetRevoked(s.t, RevokedRows(s.t, hash)));
    case Issue(th, now) =>
      if th in s.threads && s.threads[th].Claimed? {
        var w := s.threads[th];
        assert FreshTables(InsertToken(s.t, w.client, w.user, w.origin, now));
      }
    case _ =>
  }

  /** Rows that come with a table's rows and keep their secrets, or are the one just issued. */
  ghost predicate OldOrIssued(t: Tables, t': Tables) {
    forall r :: r in t'.tokens ==>
                  if r in t.tokens then
                    t'.tokens[r].refresh == t.tokens[r].refresh && t'.tokens[r].access == t.tokens[r].access
                  else r == t.next && t'.tokens[r].access == t.next + 1 && t'.tokens[r].refresh == t.next + 2
  }

  lemma OldOrIssuedKeepsOneRowEach(t: Tables, t': Tables)
    requires FreshTables(t) && OneRowEach(t) && OldOrIssued(t, t')
    ensures OneRowEach(t')
  {
  }

  lemma OldOrIssuedStep(s: State, a: Action)
    requires Fresh(s)
    ensures OldOrIssued(s.t, Apply(s, a).t)
  {
    match a
    case ClaimRefresh(th) =>
      if th in s.threads && s.threads[th].SawRefresh? {
        assert OldOrIssued(s.t, SetRevoked(s.t, ClaimedRows(s.t, s.threads[th].refresh)));
      }
    case Revoke(hash) =>
      assert OldOrIssued(s.t, SetRevoked(s.t, RevokedRows(s.t, hash)));
    case _ =>
  }

  lemma OneRowEachStep(s: State, a: Action)
    requires Fresh(s) && OneRowEach(s.t)
    ensures OneRowEach(Apply(s, a).t)
  {
    OldOrIssuedStep(s, a);
    OldOrIssuedKeepsOneRowEach(s.t, Apply(s, a).t);
  }

  /** Where a holder of the state after `a` came from. */
  function Source(s: State, a: Action, h: Holder): Holder {
    if HonoursCode(s, a) && h == InFlight(a.th) then CodeRow
    else if HonoursRefresh(s, a) && h == InFlight(a.th) then
      LiveRow(TheRow(ClaimedRows(s.t, s.threads[a.th].refresh)))
    else if a.Issue? && a.th in s.threads && s.threads[a.th].Claimed? && h == LiveRow(s.t.next) then InFlight(a.th)
    else h
  }

  lemma SourceHolds(s: State, a: Action, code: nat, h: Holder)
    requires Fresh(s) && Holds(Apply(s, a), code, h) && code < s.t.next
    ensures Holds(s, code, Source(s, a, h))
  {
  }

  lemma SourcesDiffer(s: State, a: Action, code: nat, g: Holder, h: Holder)
    requires Fresh(s) && Holds(Apply(s, a), code, g) && Holds(Apply(s, a), code, h) && g != h
    ensures Source(s, a, g) != Source(s, a, h)
  {
  }

  /** A step passes a grant on, drops it, or mints a new one: it never splits one, and never revives a spent one. */
  lemma HoldersStep(s: State, a: Action, code: nat)
    requires Fresh(s)
    ensures AtMostOne(s, code) ==> AtMostOne(Apply(s, a), code)
    ensures Unused(s, code) && code < s.t.next ==> Unused(Apply(s, a), code)
  {
    forall g, h | Holds(Apply(s, a), code, g) && Holds(Apply(s, a), code, h)
      ensures AtMostOne(s, code) ==> g == h
      ensures code < s.t.next ==> !Unused(s, code)
    {
      if code < s.t.next {
        SourceHolds(s, a, code, g);
        SourceHolds(s, a, code, h);
        if g != h {
          SourcesDiffer(s, a, code, g, h);
        }
      }
    }
  }

  /** What a waiting thread read is still what the row says, if the row is there. */
  ghost predicate Agrees(t: Tables, w: Thread) {
    match w
    case SawCode(c, client, user) => c in t.codes ==> t.codes[c].client == client && t.codes[c].user == user
    case SawRefresh(h, client, user) =>
      forall r :: RowOfRefresh(t, r, h) ==> t.tokens[r].client == client && t.tokens[r].user == user
    case Claimed(_, _, _) => true
  }

  ghost predicate Consistent(s: State) {
    forall th :: th in s.threads ==> Agrees(s.t, s.threads[th])
  }

  lemma ConsistentStep(s: State, a: Action)
    requires Fresh(s) && OneRowEach(s.t) && Consistent(s)
    ensures Consistent(Apply(s, a))
  {
    var s' := Apply(s, a);
    forall th | th in s'.threads
      ensures Agrees(s'.t, s'.threads[th])
    {
      if th in s.threads && s.threads[th] == s'.threads[th] {
        assert FreshThread(s.threads[th], s.t.next) && Agrees(s.t, s.threads[th]);
      }
    }
  }

  ghost predicate Good(s: State) {
    Fresh(s) && OneRowEach(s.t) && Consistent(s)
  }

  lemma GoodStep(s: State, a: Action)
    requires Good(s)
    ensures Good(Apply(s, a)) && Apply(s, a).t.next >= s.t.next
  {
    FreshStep(s, a);
    OneRowEachStep(s, a);
    ConsistentStep(s, a);
  }

  lemma {:induction false} GoodRun(s: State, acts: seq<Action>)
    requires Good(s)
    ensures Good(Run(s, acts)) && Run(s, acts).t.next >= s.t.next
  {
    if acts != [] {
      GoodRun(s, acts[..|acts| - 1]);
      GoodStep(Run(s, acts[..|acts| - 1]), acts[|acts| - 1]);
    }
  }

  lemma {:induction false} RunAppends(s: State, xs: seq<Action>, ys: seq<Action>)
    ensures Run(s, xs + ys) == Run(Run(s, xs), ys)
  {
    if ys == [] {
      assert xs + ys == xs;
    } else {
      RunAppends(s, xs, ys[..|ys| - 1]);
      assert (xs + ys)[..|xs + ys| - 1] == xs + ys[..|ys| - 1];
    }
  }

  // ----- theorems over whole runs -----

  lemma {:induction false} GrantsNeverSplit(s: State, acts: seq<Action>, code: nat)
    requires Good(s) && AtMostOne(s, code)
    ensures AtMostOne(Run(s, acts), code)
  {
    if acts != [] {
      var before := acts[..|acts| - 1];
      GrantsNeverSplit(s, before, code);
      GoodRun(s, before);
      HoldersStep(Run(s, before), acts[|acts| - 1], code);
    }
  }

  lemma AtMostOneIsCount(s: State, code: nat)
    requires AtMostOne(s, code)
    ensures |Holders(s, code)| <= 1
  {
    var hs := Holders(s, code);
    assert forall h :: h in hs ==> Holds(s, code, h);
    if hs != {} {
      var h :| h in hs;
      assert hs == {h};
    }
  }

  /**
   The conserved quantity: for every code, at every point of every interleaving, the code row,
   the threads that claimed but have not issued, and the unrevoked token rows descending from the code are
   at most one in number.
   */
  lemma OneGrantPerCode(acts: seq<Action>, code: nat)
    ensures |Holders(Run(Init(), acts), code)| <= 1
    ensures forall h :: h in Holders(Run(Init(), acts), code) <==> Holds(Run(Init(), acts), code, h)
  {
    GrantsNeverSplit(Init(), acts, code);
    AtMostOneIsCount(Run(Init(), acts), code);
  }

  /**
   Two bearers accepted at one point of a run, whatever the clocks of the two checks say, are one if they
   descend from one code; and while there is one, the code is gone and no exchange of its line is between claim
   and insert.
   */
  lemma OneAcceptedToken(acts: seq<Action>, q: nat, r: nat, a: nat, b: nat, now: int, later: int)
    requires var t := Run(Init(), acts).t;
             Accepts(t, q, a, now) && Accepts(t, r, b, later) && t.tokens[q].origin == t.tokens[r].origin
    ensures q == r && a == b
    ensures var s := Run(Init(), acts);
            var code := s.t.tokens[q].origin;
            && code !in s.t.codes
            && forall th :: th in s.threads && s.threads[th].Claimed? ==> s.threads[th].origin != code
  {
    var s := Run(Init(), acts);
    var code := s.t.tokens[q].origin;
    GrantsNeverSplit(Init(), acts, code);
    assert Holds(s, code, LiveRow(q)) && Holds(s, code, LiveRow(r));
    assert Holds(s, code, CodeRow) ==> CodeRow == LiveRow(q);
    forall th | th in s.threads && s.threads[th].Claimed?
      ensures s.threads[th].origin != code
    {
      assert Holds(s, code, InFlight(th)) ==> InFlight(th) == LiveRow(q);
    }
  }

  /** A code without a holder is spent: no later step, by any thread, gets a token out of it. */
  lemma {:induction false} SpentStaysSpent(s: State, acts: seq<Action>, code: nat)
    requires Good(s) && Unused(s, code) && code < s.t.next
    ensures Unused(Run(s, acts), code)
  {
    if acts != [] {
      var before := acts[..|acts| - 1];
      SpentStaysSpent(s, before, code);
      GoodRun(s, before);
      HoldersStep(Run(s, before), acts[|acts| - 1], code);
    }
  }

  lemma {:induction false} DeletedCodeStaysDeleted(s: State, acts: seq<Action>, code: nat)
    requires Good(s) && code !in s.t.codes && code < s.t.next
    ensures code !in Run(s, acts).t.codes
  {
    if acts != [] {
      DeletedCodeStaysDeleted(s, acts[..|acts| - 1], code);
      GoodRun(s, acts[..|acts| - 1]);
    }
  }

  /** Single use (section 4.1.2 of RFC 6749): no run honours a code twice. */
  lemma CodeHonouredOnce(acts: seq<Action>, i: nat, j: nat)
    requires i < j < |acts|
    requires HonoursCode(Run(Init(), acts[..i]), acts[i]) && HonoursCode(Run(Init(), acts[..j]), acts[j])
    ensures Run(Init(), acts[..i]).threads[acts[i].th].code != Run(Init(), acts[..j]).threads[acts[j].th].code
  {
    GoodRun(Init(), acts[..i]);
    GoodRun(Init(), acts[..i + 1]);
    var si := Run(Init(), acts[..i]);
    var code := si.threads[acts[i].th].code;
    assert acts[..i + 1][..i] == acts[..i];
    assert FreshThread(si.threads[acts[i].th], si.t.next);
    assert acts[..j] == acts[..i + 1] + acts[i + 1..j];
    RunAppends(Init(), acts[..i + 1], acts[i + 1..j]);
    DeletedCodeStaysDeleted(Run(Init(), acts[..i + 1]), acts[i + 1..j], code);
  }

  lemma RotatedStep(s: State, a: Action, refresh: nat)
    requires ClaimedRows(s.t, refresh) == {} && refresh < s.t.next
    ensures ClaimedRows(Apply(s, a).t, refresh) == {}
  {
    forall r | r in Apply(s, a).t.tokens
      ensures r !in ClaimedRows(Apply(s, a).t, refresh)
    {
      assert r !in ClaimedRows(s.t, refresh);
    }
  }

  lemma {:induction false} RotatedStaysRotated(s: State, acts: seq<Action>, refresh: nat)
    requires Good(s) && ClaimedRows(s.t, refresh) == {} && refresh < s.t.next
    ensures ClaimedRows(Run(s, acts).t, refresh) == {}
  {
    if acts != [] {
      var before := acts[..|acts| - 1];
      RotatedStaysRotated(s, before, refresh);
      GoodRun(s, before);
      RotatedStep(Run(s, before), acts[|acts| - 1], refresh);
    }
  }

  lemma RotationSpends(s: State, a: Action)
    requires Good(s) && HonoursRefresh(s, a)
    ensures s.threads[a.th].refresh < Apply(s, a).t.next
    ensures ClaimedRows(Apply(s, a).t, s.threads[a.th].refresh) == {}
  {
    assert FreshThread(s.threads[a.th], s.t.next);
  }

  lemma RunNext(s: State, acts: seq<Action>, i: nat, j: nat)
    requires i < j <= |acts|
    ensures Run(s, acts[..j]) == Run(Apply(Run(s, acts[..i]), acts[i]), acts[i + 1..j])
  {
    assert acts[..i + 1][..i] == acts[..i];
    assert acts[..j] == acts[..i + 1] + acts[i + 1..j];
    RunAppends(s, acts[..i + 1], acts[i + 1..j]);
  }

  lemma SpentAfter(acts: seq<Action>, i: nat, j: nat)
    requires i < j < |acts| && HonoursRefresh(Run(Init(), acts[..i]), acts[i])
    ensures ClaimedRows(Run(Init(), acts[..j]).t, Run(Init(), acts[..i]).threads[acts[i].th].refresh) == {}
  {
    var s := Run(Init(), acts[..i]);
    GoodRun(Init(), acts[..i]);
    GoodStep(s, acts[i]);
    RotationSpends(s, acts[i]);
    RunNext(Init(), acts, i, j);
    RotatedStaysRotated(Apply(s, acts[i]), acts[i + 1..j], s.threads[acts[i].th].refresh);
  }

  /** Rotation (section 6 of RFC 6749): no run honours a refresh token twice. */
  lemma RefreshHonouredOnce(acts: seq<Action>, i: nat, j: nat)
    requires i < j < |acts|
    requires HonoursRefresh(Run(Init(), acts[..i]), acts[i]) && HonoursRefresh(Run(Init(), acts[..j]), acts[j])
    ensures Run(Init(), acts[..i]).threads[acts[i].th].refresh != Run(Init(), acts[..j]).threads[acts[j].th].refresh
  {
    SpentAfter(acts, i, j);
  }

  /** Revoking either token of a live pair ends the code's whole line of tokens for good. */
  lemma RevocationIsFinal(acts: seq<Action>, r: nat, hash: nat, rest: seq<Action>)
    requires var t := Run(Init(), acts).t;
             r in t.tokens && !t.tokens[r].revoked && (t.tokens[r].access == hash || t.tokens[r].refresh == hash)
    ensures var s := Run(Init(), acts);
            Unused(Run(Apply(s, Revoke(hash)), rest), s.t.tokens[r].origin)
  {
    var s := Run(Init(), acts);
    var code := s.t.tokens[r].origin;
    GoodRun(Init(), acts);
    GrantsNeverSplit(Init(), acts, code);
    GoodStep(s, Revoke(hash));
    assert Holds(s, code, LiveRow(r));
    forall h ensures !Holds(Apply(s, Revoke(hash)), code, h) {
      if Holds(Apply(s, Revoke(hash)), code, h) {
        SourceHolds(s, Revoke(hash), code, h);
      }
    }
    SpentStaysSpent(Apply(s, Revoke(hash)), rest, code);
  }

  // ----- what a step leaves alone -----

  /** Revoking a secret marks the rows it belongs to, and does nothing else. */
  lemma RevokeTouchesOnlyItsRows(s: State, hash: nat)
    ensures var s' := Apply(s, Revoke(hash));
            && s'.threads == s.threads && s'.t.codes == s.t.codes && s'.t.next == s.t.next
            && s'.t.tokens.Keys == s.t.tokens.Keys
            && forall r :: r in s.t.tokens ==>
                             var w := s.t.tokens[r];
                             s'.t.tokens[r] == if hash in {w.access, w.refresh} then w.(revoked := true) else w
  {
    var s' := Apply(s, Revoke(hash));
    forall r | r in s.t.tokens
      ensures var w := s.t.tokens[r];
              s'.t.tokens[r] == if hash in {w.access, w.refresh} then w.(revoked := true) else w
    {
      assert r in RevokedRows(s.t, hash) <==>
             hash in {s.t.tokens[r].access, s.t.tokens[r].refresh} && !s.t.tokens[r].revoked;
    }
  }

  /** The four ways a live token row ends. */
  ghost predicate EndsRow(s: State, a: Action, r: nat)
    requires r in s.t.tokens
  {
    var w := s.t.tokens[r];
    match a
    case Revoke(hash) => hash == w.access || hash == w.refresh
    case ClaimRefresh(th) => th in s.threads && s.threads[th].SawRefresh? && s.threads[th].refresh == w.refresh
    case SignOut(user) => user == w.user
    case PruneAt(now) => w.refreshExpires < now
    case _ => false
  }

  predicate IsLive(s: State, r: nat) {
    r in s.t.tokens && !s.t.tokens[r].revoked
  }

  /** A live row stays as it is, secrets, owner and expiries included, exactly unless the step is one of the four. */
  lemma LiveRowStaysIff(s: State, a: Action, r: nat)
    requires Fresh(s) && IsLive(s, r)
    ensures IsLive(Apply(s, a), r) <==> !EndsRow(s, a, r)
    ensures IsLive(Apply(s, a), r) ==> Apply(s, a).t.tokens[r] == s.t.tokens[r]
  {
    match a
    case Revoke(hash) => RevokeTouchesOnlyItsRows(s, hash);
    case ClaimRefresh(th) =>
      if th in s.threads && s.threads[th].SawRefresh? {
        assert r in ClaimedRows(s.t, s.threads[th].refresh) <==> s.t.tokens[r].refresh == s.threads[th].refresh;
      }
    case _ =>
  }

  /** No step of the run ends the row. */
  ghost predicate NothingEnds(s: State, acts: seq<Action>, r: nat) {
    acts == [] ||
    var before := Run(s, acts[..|acts| - 1]);
    NothingEnds(s, acts[..|acts| - 1], r) && (r in before.t.tokens ==> !EndsRow(before, acts[|acts| - 1], r))
  }

  lemma EndedRowStaysEnded(s: State, before: seq<Action>, a: Action, r: nat)
    requires Good(s) && r in s.t.tokens && !IsLive(Run(s, before), r)
    ensures !IsLive(Apply(Run(s, before), a), r)
  {
    GoodRun(s, before);
    assert r < s.t.next <= Run(s, before).t.next;
  }

  /** Along any run a live row is untouched exactly as long as none of its own four ends comes. */
  lemma {:induction false} LiveRowLastsIff(s: State, acts: seq<Action>, r: nat)
    requires Good(s) && IsLive(s, r)
    ensures NothingEnds(s, acts, r) ==> IsLive(Run(s, acts), r) && Run(s, acts).t.tokens[r] == s.t.tokens[r]
    ensures !NothingEnds(s, acts, r) ==> !IsLive(Run(s, acts), r)
  {
    if acts != [] {
      var before, a := acts[..|acts| - 1], acts[|acts| - 1];
      LiveRowLastsIff(s, before, r);
      GoodRun(s, before);
      if IsLive(Run(s, before), r) {
        LiveRowStaysIff(Run(s, before), a, r);
      } else {
        EndedRowStaysEnded(s, before, a, r);
      }
    }
  }

  /**
   What a client gets: a pair issued at `now` in any run is accepted, its access token for an hour to the second,
   at every later point until one of its own four ends comes, whatever becomes of all others.
   */
  lemma IssuedPairIsAccepted(acts: seq<Action>, th: nat, now: int, rest: seq<Action>, t: int)
    requires var s := Run(Init(), acts);
             th in s.threads && s.threads[th].Claimed? && NothingEnds(Apply(s, Issue(th, now)), rest, s.t.next)
    ensures var s := Run(Init(), acts);
            var end := Run(Apply(s, Issue(th, now)), rest);
            && (Accepts(end.t, s.t.next, s.t.next + 1, t) <==> t <= now + 3600)
            && s.t.next in end.t.tokens
            && var w := end.t.tokens[s.t.next];
               && w.client == s.threads[th].client && w.user == s.threads[th].user
               && w.refreshExpires == now + 30 * 24 * 3600
  {
    var s := Run(Init(), acts);
    GoodRun(Init(), acts);
    GoodStep(s, Issue(th, now));
    LiveRowLastsIff(Apply(s, Issue(th, now)), rest, s.t.next);
  }

  /** A parked code stays as it is exactly unless it is claimed, its user is signed out, or it is pruned as expired. */
  lemma CodeStaysIff(s: State, a: Action, code: nat)
    requires Fresh(s) && code in s.t.codes
    ensures code in Apply(s, a).t.codes <==>
            !(|| (a.ClaimCode? && a.th in s.threads && s.threads[a.th].SawCode? && s.threads[a.th].code == code)
              || (a.SignOut? && a.user == s.t.codes[code].user)
              || (a.PruneAt? && s.t.codes[code].expires < a.now))
    ensures code in Apply(s, a).t.codes ==> Apply(s, a).t.codes[code] == s.t.codes[code]
  {
  }

  /** A code parked at `now` is swept away after a minute and not before. */
  lemma ParkedCodeIsSweptIff(s: State, client: nat, user: nat, now: int, sweep: int)
    requires Fresh(s)
    ensures s.t.next in Apply(Apply(s, Consent(client, user, now)), PruneAt(sweep)).t.codes <==> sweep <= now + 60
  {
  }

  /** A thread that fails is gone, and what it had claimed is not issued. */
  lemma CrashedIsGone(s: State, th: nat)
    ensures th !in Apply(s, Crash(th)).threads && Apply(s, Crash(th)).t == s.t
  {
  }

  /** A thread is moved by its own steps alone, and its own step leaves all other threads where they are. */
  lemma ThreadsAreApart(s: State, a: Action, th: nat)
    requires (a.ReadCode? || a.ClaimCode? || a.ReadRefresh? || a.ClaimRefresh? || a.Issue? || a.Crash?) ==> a.th != th
    ensures th in Apply(s, a).threads <==> th in s.threads
    ensures th in s.threads ==> Apply(s, a).threads[th] == s.threads[th]
  {
  }

  // ----- sign-out -----

  /** No thread is between its claim and its insert on behalf of `user`. */
  ghost predicate NothingInFlight(s: State, user: nat) {
    forall th :: th in s.threads && s.threads[th].Claimed? ==> s.threads[th].user != user
  }

  ghost predicate NoConsent(acts: seq<Action>, user: nat) {
    forall i :: 0 <= i < |acts| ==> !(acts[i].Consent? && acts[i].user == user)
  }

  ghost predicate HasToken(s: State, user: nat) {
    exists r :: r in s.t.tokens && s.t.tokens[r].user == user
  }

  /** Nothing of `user` is left, nor can any waiting thread bring it back. */
  ghost predicate Gone(s: State, user: nat) {
    && (forall c :: c in s.t.codes ==> s.t.codes[c].user != user)
    && (forall r :: r in s.t.tokens ==> s.t.tokens[r].user != user)
    && NothingInFlight(s, user)
  }

  lemma GoneStep(s: State, a: Action, user: nat)
    requires Good(s) && Gone(s, user) && NoConsent([a], user)
    ensures Gone(Apply(s, a), user)
  {
    if HonoursCode(s, a) {
      assert Agrees(s.t, s.threads[a.th]);
    }
    if HonoursRefresh(s, a) {
      var r := TheRow(ClaimedRows(s.t, s.threads[a.th].refresh));
      assert Agrees(s.t, s.threads[a.th]) && RowOfRefresh(s.t, r, s.threads[a.th].refresh);
    }
    assert a.Consent? ==> [a][0].user != user;
  }

  lemma {:induction false} GoneForGood(s: State, acts: seq<Action>, user: nat)
    requires Good(s) && Gone(s, user) && NoConsent(acts, user)
    ensures Gone(Run(s, acts), user)
  {
    if acts != [] {
      var before, a := acts[..|acts| - 1], acts[|acts| - 1];
      GoneForGood(s, before, user);
      GoodRun(s, before);
      GoneStep(Run(s, before), a, user);
    }
  }

  /**
   Signing a user out ends the user's grants for good, short of a new consent, exactly when no
   exchange is between its claim and its insert: such a thread still issues a live pair afterwards.
   */
  lemma SignOutIsFinalIff(acts: seq<Action>, user: nat)
    ensures var s := Run(Init(), acts);
            NothingInFlight(s, user) <==>
            forall rest :: NoConsent(rest, user) ==> !HasToken(Run(Apply(s, SignOut(user)), rest), user)
  {
    var s := Run(Init(), acts);
    var out := Apply(s, SignOut(user));
    GoodRun(Init(), acts);
    GoodStep(s, SignOut(user));
    if NothingInFlight(s, user) {
      forall rest | NoConsent(rest, user)
        ensures !HasToken(Run(out, rest), user)
      {
        GoneForGood(out, rest, user);
      }
    } else {
      var th :| th in s.threads && s.threads[th].Claimed? && s.threads[th].user == user;
      var rest := [Issue(th, 0)];
      assert rest[..0] == [];
      assert Run(out, rest) == Apply(out, Issue(th, 0));
      assert out.t.next in Run(out, rest).t.tokens && Run(out, rest).t.tokens[out.t.next].user == user;
      assert NoConsent(rest, user);
    }
  }

  lemma RunThree(s: State, acts: seq<Action>)
    requires |acts| == 3
    ensures Run(s, acts) == Apply(Apply(Apply(s, acts[0]), acts[1]), acts[2])
  {
    assert acts[..1][..0] == [] && acts[..2][..1] == acts[..1];
    assert Run(s, acts[..1]) == Apply(s, acts[0]);
    assert Run(s, acts[..2]) == Apply(Run(s, acts[..1]), acts[1]);
  }

  /** User 7 consents, an exchange claims the code, the user is signed out, and the exchange issues all the same. */
  lemma ClaimedExchangeOutlivesSignOut(acts: seq<Action>)
    requires |acts| == 3 && acts[0] == Consent(1, 7, 0) && acts[1] == ReadCode(0, 0, 1) && acts[2] == ClaimCode(0)
    ensures HasToken(Apply(Apply(Run(Init(), acts), SignOut(7)), Issue(0, 0)), 7)
  {
    RunThree(Init(), acts);
    var s := Run(Init(), acts);
    assert s.threads[0] == Claimed(0, 1, 7);
    var out := Apply(s, SignOut(7));
    assert out.t.next in Apply(out, Issue(0, 0)).t.tokens;
  }

  // ----- whose grant it is -----

  /** Everything descending from `code` carries the client and user of the consent. */
  ghost predicate Carries(s: State, code: nat, client: nat, user: nat) {
    && (code in s.t.codes ==> s.t.codes[code].client == client && s.t.codes[code].user == user)
    && (forall th :: th in s.threads && s.threads[th].Claimed? && s.threads[th].origin == code ==>
                       s.threads[th].client == client && s.threads[th].user == user)
    && (forall r :: r in s.t.tokens && s.t.tokens[r].origin == code ==>
                      s.t.tokens[r].client == client && s.t.tokens[r].user == user)
  }

  lemma CarriesStep(s: State, a: Action, code: nat, client: nat, user: nat)
    requires Good(s) && Carries(s, code, client, user) && code < s.t.next
    ensures Carries(Apply(s, a), code, client, user)
  {
    if HonoursCode(s, a) {
      assert Agrees(s.t, s.threads[a.th]);
    }
    if HonoursRefresh(s, a) {
      var r := TheRow(ClaimedRows(s.t, s.threads[a.th].refresh));
      assert Agrees(s.t, s.threads[a.th]) && RowOfRefresh(s.t, r, s.threads[a.th].refresh);
    }
  }

  lemma {:induction false} CarriesRun(s: State, acts: seq<Action>, code: nat, client: nat, user: nat)
    requires Good(s) && Carries(s, code, client, user) && code < s.t.next
    ensures Carries(Run(s, acts), code, client, user)
  {
    if acts != [] {
      var before := acts[..|acts| - 1];
      CarriesRun(s, before, code, client, user);
      GoodRun(s, before);
      CarriesStep(Run(s, before), acts[|acts| - 1], code, client, user);
    }
  }

  /** Every token ever issued under a consent belongs to the user who consented and the client it was for. */
  lemma TokensBelongToTheConsent(acts: seq<Action>, client: nat, user: nat, now: int, rest: seq<Action>, r: nat)
    requires var s := Run(Init(), acts);
             var end := Run(Apply(s, Consent(client, user, now)), rest);
             r in end.t.tokens && end.t.tokens[r].origin == s.t.next
    ensures var end := Run(Apply(Run(Init(), acts), Consent(client, user, now)), rest);
            end.t.tokens[r].client == client && end.t.tokens[r].user == user
  {
    var s := Run(Init(), acts);
    GoodRun(Init(), acts);
    GoodStep(s, Consent(client, user, now));
    forall th | th in s.threads && s.threads[th].Claimed?
      ensures s.threads[th].origin < s.t.next
    {
      assert FreshThread(s.threads[th], s.t.next);
    }
    CarriesRun(Apply(s, Consent(client, user, now)), rest, s.t.next, client, user);
  }

  // ----- the provider's own methods, uninterrupted -----

  datatype Grant = InvalidGrant | Pair(access: nat, refresh: nat)

  /** Claiming a refresh token changes its one row. */
  lemma ClaimOnly(s: State, th: nat, row: nat)
    requires OneRowEach(s.t) && row in s.t.tokens && !s.t.tokens[row].revoked
    requires th in s.threads && s.threads[th].SawRefresh? && s.threads[th].refresh == s.t.tokens[row].refresh
    ensures var w := s.threads[th];
            Apply(s, ClaimRefresh(th)) ==
            State(SetRevoked(s.t, {row}), s.threads[th := Claimed(s.t.tokens[row].origin, w.client, w.user)])
  {
    assert ClaimedRows(s.t, s.threads[th].refresh) == {row};
    assert TheRow({row}) == row;
  }

  /** A claim succeeds if and only if what the thread saw is still there, a code as a row, a refresh token unrevoked. */
  lemma ClaimSucceedsIff(s: State, th: nat)
    requires OneRowEach(s.t) && th in s.threads
    ensures s.threads[th].SawCode? ==>
              var w, after := s.threads[th], Apply(s, ClaimCode(th));
              && (th in after.threads <==> w.code in s.t.codes)
              && (th in after.threads ==> after.threads[th] == Claimed(w.code, w.client, w.user))
    ensures s.threads[th].SawRefresh? ==>
              var w, after := s.threads[th], Apply(s, ClaimRefresh(th));
              && (th in after.threads <==>
                  exists r :: r in s.t.tokens && s.t.tokens[r].refresh == w.refresh && !s.t.tokens[r].revoked)
              && (forall r :: r in s.t.tokens && s.t.tokens[r].refresh == w.refresh && !s.t.tokens[r].revoked ==>
                                after.threads[th] == Claimed(s.t.tokens[r].origin, w.client, w.user))
  {
    if s.threads[th].SawRefresh? {
      var w := s.threads[th];
      if r :| r in s.t.tokens && s.t.tokens[r].refresh == w.refresh && !s.t.tokens[r].revoked {
        ClaimOnly(s, th, r);
        assert forall q :: q in s.t.tokens && s.t.tokens[q].refresh == w.refresh ==> q == r;
      } else {
        assert ClaimedRows(s.t, w.refresh) == {};
      }
    }
  }

  /**
   An exchange whose three transactions come in a row, whatever else is under way: a code of this client turns into
   one fresh pair, and any other call changes nothing.
   */
  lemma CodeExchanged(s: State, th: nat, code: nat, client: nat, now: int)
    requires th !in s.threads
    ensures Apply(Apply(Apply(s, ReadCode(th, code, client)), ClaimCode(th)), Issue(th, now)) ==
            if code in s.t.codes && s.t.codes[code].client == client then
              var n, user := s.t.next, s.t.codes[code].user;
              var row := Token(n + 1, n + 2, client, user, now + 3600, now + 30 * 24 * 3600, false, code);
              State(Tables(s.t.codes - {code}, s.t.tokens[n := row], n + 3), s.threads)
            else s
  {
    if code in s.t.codes && s.t.codes[code].client == client {
      var saw, claimed := SawCode(code, client, s.t.codes[code].user), Claimed(code, client, s.t.codes[code].user);
      assert s.threads[th := saw][th := claimed] - {th} == s.threads;
    }
  }

  /** A refresh in a row: an unrevoked row of this client is revoked and turns into one fresh pair of its line. */
  lemma RefreshExchanged(s: State, th: nat, row: nat, client: nat, now: int)
    requires th !in s.threads && OneRowEach(s.t) && row in s.t.tokens
    ensures var w, n := s.t.tokens[row], s.t.next;
            Apply(Apply(Apply(s, ReadRefresh(th, row, client)), ClaimRefresh(th)), Issue(th, now)) ==
            if w.revoked || w.client != client then s
            else
              var issued := Token(n + 1, n + 2, client, w.user, now + 3600, now + 30 * 24 * 3600, false, w.origin);
              State(Tables(s.t.codes, s.t.tokens[row := w.(revoked := true)][n := issued], n + 3), s.threads)
  {
    var w := s.t.tokens[row];
    if !w.revoked && w.client == client {
      var saw, claimed := SawRefresh(w.refresh, client, w.user), Claimed(w.origin, client, w.user);
      ClaimOnly(s.(threads := s.threads[th := saw]), th, row);
      assert s.threads[th := saw][th := claimed] - {th} == s.threads;
      assert SetRevoked(s.t, {row}).tokens == s.t.tokens[row := w.(revoked := true)];
    }
  }

  lemma RefreshInOneGo(s: State, acts: seq<Action>, row: nat, client: nat, now: int)
    requires s.threads == map[] && OneRowEach(s.t) && row in s.t.tokens
    requires |acts| == 3 && acts[0] == ReadRefresh(0, row, client) && acts[1] == ClaimRefresh(0)
    requires acts[2] == Issue(0, now)
    ensures var w, n := s.t.tokens[row], s.t.next;
            Run(s, acts).t ==
            if w.revoked || w.client != client then s.t
            else
              var issued := Token(n + 1, n + 2, client, w.user, now + 3600, now + 30 * 24 * 3600, false, w.origin);
              Tables(s.t.codes, s.t.tokens[row := w.(revoked := true)][n := issued], n + 3)
  {
    RunThree(s, acts);
    RefreshExchanged(s, 0, row, client, now);
  }

  /** `PortalOAuthProvider` over its tables. */
  class Provider {
    var codes: map<nat, Code>
    var tokens: map<nat, Token>
    var next: nat

    function Value(): Tables
      reads this
    {
      Tables(codes, tokens, next)
    }

    constructor ()
      ensures Value() == Init().t
    {
      codes, tokens, next := map[], map[], 0;
    }

    method Issue(client: nat, user: nat, origin: nat, now: int) returns (g: Grant)
      modifies this
      ensures Value() == InsertToken(old(Value()), client, user, origin, now)
      ensures g == Pair(old(next) + 1, old(next) + 2)
    {
      g := Pair(next + 1, next + 2);
      var row := Token(next + 1, next + 2, client, user, now + ACCESS_TTL, now + REFRESH_TTL, false, origin);
      tokens := tokens[next := row];
      next := next + 3;
    }

    /** `exchange_authorization_code`: without interference, its three transactions in a row. */
    method ExchangeAuthorizationCode(client: nat, code: nat, now: int) returns (g: Grant)
      modifies this
      ensures Value() ==
              Run(State(old(Value()), map[]), [ReadCode(0, code, client), ClaimCode(0), Action.Issue(0, now)]).t
      ensures g.Pair? <==> code in old(codes) && old(codes)[code].client == client
    {
      var steps := [ReadCode(0, code, client), ClaimCode(0), Action.Issue(0, now)];
      RunThree(State(Value(), map[]), steps);
      if code !in codes || codes[code].client != client {
        return InvalidGrant;
      }
      var user := codes[code].user;
      codes := codes - {code};
      g := Issue(client, user, code, now);
    }

    /** `exchange_refresh_token` for the row its lookup returned. */
    method ExchangeRefreshToken(client: nat, row: nat, now: int) returns (g: Grant)
      requires OneRowEach(Value()) && row in tokens
      modifies this
      ensures Value() ==
              Run(State(old(Value()), map[]), [ReadRefresh(0, row, client), ClaimRefresh(0), Action.Issue(0, now)]).t
      ensures g.Pair? <==> !old(tokens)[row].revoked && old(tokens)[row].client == client
    {
      ghost var before := State(Value(), map[]);
      ghost var acts := [ReadRefresh(0, row, client), ClaimRefresh(0), Action.Issue(0, now)];
      RefreshInOneGo(before, acts, row, client, now);
      if tokens[row].revoked || tokens[row].client != client {
        return InvalidGrant;
      }
      var claimed := tokens[row];
      tokens := tokens[row := claimed.(revoked := true)];
      g := Issue(client, claimed.user, claimed.origin, now);
    }
  }
}
