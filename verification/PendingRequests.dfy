/**
 `PortalOAuthProvider.authorize` in `portal/oauth.py`: parked authorization requests, at most
 ten live ones per client and five hundred in all, the oldest dropped to make room.

 SQL does not say which of two rows with equal expiry the `ORDER BY … LIMIT` picks. `EvictsOldest`
 allows any choice, and every theorem holds for all of them.
 */
module PendingRequests {
  import opened Basics

  const PENDING_TTL := 15 * 60
  const MAX_STATE_LEN := 512
  const MAX_RESOURCE_LEN := 512
  const MAX_PENDING_PER_CLIENT := 10
  const MAX_LIVE_PENDING := 500

  datatype Request = Request(client: nat, expires: int)

  /** Parked requests by transaction id. */
  type Table = map<nat, Request>

  function Unexpired(t: Table, now: int): Table {
    map k | k in t && t[k].expires >= now :: t[k]
  }

  function OfClient(t: Table, client: nat): set<nat> {
    set k | k in t && t[k].client == client
  }

  /** `t'` is `t` without some `n` rows of `scope`, none of which expires later than one of `scope` that stays. */
  ghost predicate EvictsOldest(t: Table, scope: set<nat>, n: nat, t': Table) {
    && t'.Keys <= t.Keys && (forall k :: k in t' ==> t'[k] == t[k])
    && t.Keys - t'.Keys <= scope && |t.Keys - t'.Keys| == n
    && (forall gone, kept :: gone in t && gone !in t' && kept in t' && kept in scope ==>
                               t[gone].expires <= t[kept].expires)
  }

  /** One round of the cap loop: room for one more row in `scope`. */
  ghost predicate MakesRoom(t: Table, scope: set<nat>, cap: nat, t': Table) {
    if |scope| >= cap then EvictsOldest(t, scope, |scope| - cap + 1, t') else t' == t
  }

  /** One accepted call, with the table after each of its two rounds. */
  datatype Call = Call(client: nat, txn: nat, now: int, later: int, t1: Table, t2: Table)

  /** Expire, cap the client, cap the table, insert. */
  ghost predicate Authorized(t: Table, c: Call, t': Table) {
    && MakesRoom(Unexpired(t, c.now), OfClient(Unexpired(t, c.now), c.client), MAX_PENDING_PER_CLIENT, c.t1)
    && MakesRoom(c.t1, c.t1.Keys, MAX_LIVE_PENDING, c.t2)
    && c.txn !in t
    && t' == c.t2[c.txn := Request(c.client, c.later + PENDING_TTL)]
  }

  predicate IsOldest(t: Table, scope: set<nat>, k: nat)
    requires scope <= t.Keys
  {
    k in scope && forall j :: j in scope ==> t[k].expires <= t[j].expires
  }

  datatype Outcome = InvalidRequest | Parked(txn: nat)

  lemma Remaining(t: Table, t': Table, scope: set<nat>)
    requires scope <= t.Keys && t'.Keys <= t.Keys && t.Keys - t'.Keys <= scope
    ensures |scope * t'.Keys| == |scope| - |t.Keys - t'.Keys|
  {
    assert scope == scope * t'.Keys + (t.Keys - t'.Keys);
  }

  lemma OneMoreEvicted(t: Table, t': Table, scope: set<nat>, n: nat, k: nat)
    requires EvictsOldest(t, scope, n, t') && IsOldest(t', scope * t'.Keys, k)
    ensures EvictsOldest(t, scope, n + 1, t' - {k})
  {
    var t'' := t' - {k};
    assert t.Keys - t''.Keys == (t.Keys - t'.Keys) + {k};
    forall gone, kept | gone in t && gone !in t'' && kept in t'' && kept in scope
      ensures t[gone].expires <= t[kept].expires
    {
      if gone == k {
        assert kept in scope * t'.Keys;
      }
    }
  }

  lemma {:induction false} SomeOldest(t: Table, scope: set<nat>)
    requires scope != {} && scope <= t.Keys
    ensures exists k :: IsOldest(t, scope, k)
    decreases |scope|
  {
    var x :| x in scope;
    var rest := scope - {x};
    if rest == {} {
      assert scope == {x};
      assert IsOldest(t, scope, x);
    } else {
      SomeOldest(t, rest);
      var k :| IsOldest(t, rest, k);
      var best := if t[x].expires <= t[k].expires then x else k;
      forall j | j in scope
        ensures t[best].expires <= t[j].expires
      {
        assert j == x || j in rest;
      }
      assert IsOldest(t, scope, best);
    }
  }

  class PendingTable {
    var rows: Table
    var next: nat  // transaction ids are random in the program: fresh here

    ghost predicate Valid()
      reads this
    {
      forall k :: k in rows ==> k < next
    }

    constructor ()
      ensures Valid() && rows == map[]
    {
      rows, next := map[], 0;
    }

    /** `DELETE … WHERE txn IN (SELECT … WHERE scope ORDER BY expires_at LIMIT n)`. */
    method DropOldest(scope: set<nat>, n: nat)
      requires scope <= rows.Keys && n <= |scope|
      modifies `rows
      ensures EvictsOldest(old(rows), scope, n, rows)
    {
      ghost var before := rows;
      var left := n;
      while left > 0
        invariant 0 <= left <= n
        invariant EvictsOldest(before, scope, n - left, rows)
      {
        var candidates := scope * rows.Keys;
        Remaining(before, rows, scope);
        SomeOldest(rows, candidates);
        var k :| IsOldest(rows, candidates, k);
        OneMoreEvicted(before, rows, scope, n - left, k);
        rows := rows - {k};
        left := left - 1;
      }
    }

    /** One round of the cap loop. */
    method MakeRoom(scope: set<nat>, cap: nat)
      requires scope <= rows.Keys && cap > 0
      modifies `rows
      ensures MakesRoom(old(rows), scope, cap, rows) && rows.Keys <= old(rows).Keys
    {
      if |scope| >= cap {
        DropOldest(scope, |scope| - cap + 1);
      }
    }

    method Authorize(client: nat, challengeLen: nat, stateLen: nat, resourceLen: nat, now: int, later: int)
      returns (out: Outcome, ghost call: Call)
      requires Valid()
      modifies this
      ensures Valid()
      ensures out.InvalidRequest? <==>
              !(43 <= challengeLen <= 128) || stateLen > MAX_STATE_LEN || resourceLen > MAX_RESOURCE_LEN
      ensures out.InvalidRequest? ==> rows == old(rows)
      ensures out.Parked? ==> Authorized(old(rows), call, rows) && out.txn == call.txn
                              && call.client == client && call.now == now && call.later == later
    {
      call := Call(client, next, now, later, map[], map[]);
      if !(43 <= challengeLen <= 128) || stateLen > MAX_STATE_LEN || resourceLen > MAX_RESOURCE_LEN {
        return InvalidRequest, call;
      }
      rows := Unexpired(rows, now);
      MakeRoom(OfClient(rows, client), MAX_PENDING_PER_CLIENT);
      ghost var t1 := rows;
      MakeRoom(rows.Keys, MAX_LIVE_PENDING);
      call := Call(client, next, now, later, t1, rows);
      rows := rows[next := Request(client, later + PENDING_TTL)];
      out := Parked(next);
      next := next + 1;
    }
  }

  // ----- proofs -----

  lemma RoomIsMade(t: Table, scope: set<nat>, cap: nat, t': Table)
    requires scope <= t.Keys && cap > 0 && MakesRoom(t, scope, cap, t')
    ensures t'.Keys <= t.Keys && (forall k :: k in t' ==> t'[k] == t[k])
    ensures |scope * t'.Keys| < cap
    ensures forall k :: k in t && k !in scope ==> k in t'
    ensures |scope| < cap ==> t' == t
  {
    if |scope| >= cap {
      Remaining(t, t', scope);
    } else {
      assert scope * t'.Keys == scope;
    }
  }

  lemma ClientRound(t: Table, live: Table, now: int, client: nat, t1: Table)
    requires live == Unexpired(t, now) && MakesRoom(live, OfClient(live, client), MAX_PENDING_PER_CLIENT, t1)
    ensures t1.Keys <= live.Keys && (forall k :: k in t1 ==> k in t && t1[k] == t[k] && t[k].expires >= now)
    ensures forall k :: k in t && t[k].expires >= now && t[k].client != client ==> k in t1
    ensures |OfClient(live, client) * t1.Keys| < MAX_PENDING_PER_CLIENT
  {
    RoomIsMade(live, OfClient(live, client), MAX_PENDING_PER_CLIENT, t1);
    forall k | k in t && t[k].expires >= now && t[k].client != client
      ensures k in t1
    {
      assert k in live && k !in OfClient(live, client);
    }
  }

  lemma WholeTableRound(t1: Table, t2: Table)
    requires MakesRoom(t1, t1.Keys, MAX_LIVE_PENDING, t2)
    ensures t2.Keys <= t1.Keys && (forall k :: k in t2 ==> t2[k] == t1[k])
    ensures |t2| < MAX_LIVE_PENDING
    ensures |t1| < MAX_LIVE_PENDING ==> t2 == t1
  {
    RoomIsMade(t1, t1.Keys, MAX_LIVE_PENDING, t2);
    assert t1.Keys * t2.Keys == t2.Keys;
  }

  /** The table after the first round, and after the second. */
  lemma Rounds(t: Table, c: Call, t': Table)
    requires Authorized(t, c, t')
    ensures c.t2.Keys <= c.t1.Keys <= Unexpired(t, c.now).Keys
    ensures forall k :: k in t' && k != c.txn ==> k in c.t2 && k in t && t'[k] == t[k] && t[k].expires >= c.now
    ensures forall k :: k in t && t[k].expires >= c.now && t[k].client != c.client ==> k in c.t1
    ensures |OfClient(Unexpired(t, c.now), c.client) * c.t1.Keys| < MAX_PENDING_PER_CLIENT
    ensures |c.t2| < MAX_LIVE_PENDING
    ensures |c.t1| < MAX_LIVE_PENDING ==> c.t2 == c.t1
  {
    ClientRound(t, Unexpired(t, c.now), c.now, c.client, c.t1);
    WholeTableRound(c.t1, c.t2);
  }

  lemma OneMore(some: set<nat>, kept: set<nat>, x: nat)
    requires some <= kept + {x}
    ensures |some| <= |kept| + 1
  {
    SubsetSize(some, kept + {x});
  }

  /**
   After every accepted call, whatever the table held before: the new request is in it, its client
   holds at most ten rows, the table holds at most five hundred, every other row is an unexpired
   old one, and no other client gained one.
   */
  lemma CapsHold(t: Table, c: Call, t': Table)
    requires Authorized(t, c, t')
    ensures c.txn in t' && t'[c.txn] == Request(c.client, c.later + PENDING_TTL)
    ensures |OfClient(t', c.client)| <= MAX_PENDING_PER_CLIENT && |t'| <= MAX_LIVE_PENDING
    ensures forall k :: k in t' && k != c.txn ==> k in t && t'[k] == t[k] && t[k].expires >= c.now
  {
    Rounds(t, c, t');
    OneMore(t'.Keys, c.t2.Keys, c.txn);
    OneMore(OfClient(t', c.client), OfClient(Unexpired(t, c.now), c.client) * c.t1.Keys, c.txn);
  }

  lemma NoRoundIsNeeded(live: Table, c: Call)
    requires MakesRoom(live, OfClient(live, c.client), MAX_PENDING_PER_CLIENT, c.t1)
    requires MakesRoom(c.t1, c.t1.Keys, MAX_LIVE_PENDING, c.t2)
    requires |OfClient(live, c.client)| < MAX_PENDING_PER_CLIENT && |live.Keys| < MAX_LIVE_PENDING
    ensures c.t2 == live
  {
  }

  /** Below both caps nothing live is lost: the expired rows go and the new one comes, for a quarter of an hour. */
  lemma BelowTheCapsNothingIsLost(t: Table, c: Call, t': Table)
    requires Authorized(t, c, t')
    requires var live := map k | k in t && t[k].expires >= c.now :: t[k];
             |live.Keys| < 500 && |set k | k in live && live[k].client == c.client| < 10
    ensures var live := map k | k in t && t[k].expires >= c.now :: t[k];
            t' == live[c.txn := Request(c.client, c.later + 900)]
  {
    var live := map k | k in t && t[k].expires >= c.now :: t[k];
    assert live == Unexpired(t, c.now);
    assert OfClient(live, c.client) == set k | k in live && live[k].client == c.client;
    NoRoundIsNeeded(live, c);
  }

  ghost predicate WithinCaps(t: Table, client: nat) {
    |OfClient(t, client)| <= MAX_PENDING_PER_CLIENT && |t| <= MAX_LIVE_PENDING
  }

  ghost predicate Lost(t: Table, u: Table) {
    u.Keys <= t.Keys && forall k :: k in u ==> u[k] == t[k]
  }

  lemma LosingKeepsCaps(t: Table, u: Table, client: nat)
    requires Lost(t, u) && WithinCaps(t, client)
    ensures WithinCaps(u, client)
  {
    SubsetSize(OfClient(u, client), OfClient(t, client));
    SubsetSize(u.Keys, t.Keys);
  }

  /** A call keeps the caps of everybody, since it adds nothing to the rows of anybody else. */
  lemma CallKeepsCaps(t: Table, c: Call, t': Table, client: nat)
    requires Authorized(t, c, t') && WithinCaps(t, client)
    ensures WithinCaps(t', client)
  {
    CapsHold(t, c, t');
    if client != c.client {
      SubsetSize(OfClient(t', client), OfClient(t, client));
    }
  }

  /** Rows go to consents given, or in any other way, and then a call is accepted. */
  ghost predicate Next(t: Table, u: Table, c: Call, t': Table) {
    Lost(t, u) && Authorized(u, c, t')
  }

  lemma NextKeepsCaps(t: Table, u: Table, c: Call, t': Table, client: nat)
    requires Next(t, u, c, t') && WithinCaps(t, client)
    ensures WithinCaps(t', client)
  {
    LosingKeepsCaps(t, u, client);
    CallKeepsCaps(u, c, t', client);
  }

  ghost predicate NextAt(ts: seq<Table>, us: seq<Table>, calls: seq<Call>, i: nat) {
    |ts| == |calls| + 1 && |us| == |calls| && i < |us| && Next(ts[i], us[i], calls[i], ts[i + 1])
  }

  /**
   A history from the empty table: `ts[i]` is the table after `i` accepted calls, `us[i]` the one the next call
   finds.
   */
  ghost predicate History(ts: seq<Table>, us: seq<Table>, calls: seq<Call>) {
    && |ts| == |calls| + 1 && |us| == |calls| && ts[0] == map[]
    && forall i :: 0 <= i < |us| ==> NextAt(ts, us, calls, i)
  }

  lemma EmptyIsWithinCaps(client: nat)
    ensures WithinCaps(map[], client)
  {
    assert OfClient(map[], client) == {};
  }

  lemma {:induction false} CapsRun(ts: seq<Table>, us: seq<Table>, calls: seq<Call>, n: nat, client: nat)
    requires History(ts, us, calls) && n < |ts|
    ensures WithinCaps(ts[n], client)
  {
    if n == 0 {
      EmptyIsWithinCaps(client);
    } else {
      CapsRun(ts, us, calls, n - 1, client);
      assert NextAt(ts, us, calls, n - 1);
      NextKeepsCaps(ts[n - 1], us[n - 1], calls[n - 1], ts[n], client);
    }
  }

  /**
   After every call of every history from the empty table, each client holds at most ten rows and the table at most
   five hundred. `ts[i]` is the table after `i` accepted calls, `us[i]` the one the next call finds.
   */
  lemma CapsHoldForEveryone(ts: seq<Table>, us: seq<Table>, calls: seq<Call>, n: nat, client: nat)
    requires |ts| == |calls| + 1 && |us| == |calls| && ts[0] == map[] && n < |ts|
    requires forall i :: 0 <= i < |calls| ==>
                           && us[i].Keys <= ts[i].Keys && (forall k :: k in us[i] ==> us[i][k] == ts[i][k])
                           && Authorized(us[i], calls[i], ts[i + 1])
    ensures |OfClient(ts[n], client)| <= 10 && |ts[n]| <= 500
  {
    forall i | 0 <= i < |us| ensures NextAt(ts, us, calls, i) {
      assert Lost(ts[i], us[i]);
    }
    CapsRun(ts, us, calls, n, client);
  }

  /**
   What the caps drop is the oldest: a live row that goes in the first round is the client's own and
   expires no later than any of the client's old rows that stay; one that goes in the second round
   expires no later than any old row that stays.
   */
  lemma NewestSurvive(t: Table, c: Call, t': Table, gone: nat, kept: nat)
    requires Authorized(t, c, t')
    requires gone in t && t[gone].expires >= c.now && gone !in t' && kept in t' && kept != c.txn
    requires t[gone].client == t[kept].client || gone in c.t1
    ensures t[gone].expires <= t[kept].expires
  {
    Rounds(t, c, t');
    assert gone !in c.t2;
    if gone in c.t1 {
      RoomIsMade(Unexpired(t, c.now), OfClient(Unexpired(t, c.now), c.client), MAX_PENDING_PER_CLIENT, c.t1);
      assert EvictsOldest(c.t1, c.t1.Keys, |c.t1.Keys| - MAX_LIVE_PENDING + 1, c.t2);
    } else {
      var live := Unexpired(t, c.now);
      var mine := OfClient(live, c.client);
      assert gone in live;
      assert EvictsOldest(live, mine, |mine| - MAX_PENDING_PER_CLIENT + 1, c.t1);
      assert kept in c.t1 && kept in mine;
    }
  }

  /** A live request of another client is displaced only when the table-wide cap is reached. */
  lemma OthersDisplacedOnlyAtTableCap(t: Table, c: Call, t': Table, k: nat)
    requires Authorized(t, c, t')
    ensures k in t && t[k].expires >= c.now && t[k].client != c.client && k !in t' ==> |c.t1| >= MAX_LIVE_PENDING
  {
    Rounds(t, c, t');
  }

  function Others(t: Table, client: nat): set<nat> {
    set k | k in t && t[k].client != client
  }

  lemma FloodStep(t: Table, c: Call, t': Table)
    requires Authorized(t, c, t')
    requires |Others(t, c.client)| + MAX_PENDING_PER_CLIENT <= MAX_LIVE_PENDING
    ensures forall k :: k in Others(t, c.client) && t[k].expires >= c.now ==> k in t' && t'[k] == t[k]
    ensures |Others(t', c.client)| + MAX_PENDING_PER_CLIENT <= MAX_LIVE_PENDING
  {
    Rounds(t, c, t');
    SubsetSize(Others(t', c.client), Others(t, c.client));
    var kept := OfClient(Unexpired(t, c.now), c.client) * c.t1.Keys;
    SubsetSize(c.t1.Keys, Others(t, c.client) + kept);
    assert c.t2 == c.t1;
  }

  /**
   However long one client floods the endpoint, on a clock that ends at `end`, the requests of everyone else stay
   parked until they expire, provided those together leave the flooder its ten places below the table-wide cap.
   */
  lemma {:induction false} FloodDisplacesOnlyItself(ts: seq<Table>, calls: seq<Call>, client: nat, end: int, n: nat)
    requires |ts| == |calls| + 1 && n < |ts|
    requires forall i :: 0 <= i < |calls| ==>
                           && calls[i].client == client && calls[i].now <= end
                           && Authorized(ts[i], calls[i], ts[i + 1])
    requires |Others(ts[0], client)| + MAX_PENDING_PER_CLIENT <= MAX_LIVE_PENDING
    ensures |Others(ts[n], client)| + MAX_PENDING_PER_CLIENT <= MAX_LIVE_PENDING
    ensures forall k :: k in Others(ts[0], client) && ts[0][k].expires >= end ==> k in ts[n] && ts[n][k] == ts[0][k]
  {
    if n > 0 {
      FloodDisplacesOnlyItself(ts, calls, client, end, n - 1);
      FloodStep(ts[n - 1], calls[n - 1], ts[n]);
    }
  }
}
