/**
 `portal/api.py`, `session_exchange`, with the parts of `portal/sessions.py` it races against.

 An exchange reads its clock, claims the launch token by one conditional UPDATE, reads the row back to check it,
 and inserts the app session in a transaction of its own. Any number of exchanges interleave with launches, sign-outs,
 deletions and crashes. `origin` and `came` on a session are bookkeeping of the model: the token it was minted
 from, and when the request came in.
 */
module LaunchTokens {

  const TOKEN_TTL := 60
  const KEEP := 24 * 3600

  datatype Token = Token(user: nat, slug: string, expires: int, consumed: bool)

  datatype AppSession = AppSession(user: nat, slug: string, revoked: bool, origin: nat, came: int)

  datatype Tables = Tables(users: set<nat>, tokens: map<nat, Token>, sessions: map<nat, AppSession>, next: nat)

  datatype Thread =
    | Arrived(token: nat, slug: string, at: int)
    | Claimed(token: nat, slug: string, at: int)
    | Checked(token: nat, slug: string, at: int, user: nat)

  datatype State = State(t: Tables, clock: int, threads: map<nat, Thread>)

  datatype Action =
    | Tick(now: int)
    | Launch(user: nat, slug: string)
    | Arrive(th: nat, token: nat, slug: string)
    | Claim(th: nat)
    | ReadBack(th: nat)
    | Mint(th: nat)
    | Crash(th: nat)
    | CloseSessions(user: nat)
    | DeleteTokens(user: nat)
    | DeleteUser(user: nat)
    | PurgeTokens

  // ----- single SQL statements -----

  function ConsumeToken(t: Tables, token: nat): Tables
    requires token in t.tokens
  {
    t.(tokens := t.tokens[token := t.tokens[token].(consumed := true)])
  }

  function InsertSession(t: Tables, user: nat, slug: string, origin: nat, came: int): Tables {
    t.(sessions := t.sessions[t.next := AppSession(user, slug, false, origin, came)], next := t.next + 1)
  }

  function SessionsClosed(sessions: map<nat, AppSession>, user: nat): map<nat, AppSession> {
    map i | i in sessions :: if sessions[i].user == user then sessions[i].(revoked := true) else sessions[i]
  }

  function TokensWithout(tokens: map<nat, Token>, user: nat): map<nat, Token> {
    map k | k in tokens && tokens[k].user != user :: tokens[k]
  }

  /**
   The row read back passes: it is still there, had not expired when the request came, is for this app and its
   user exists.
   */
  predicate Passes(t: Tables, w: Thread) {
    && w.token in t.tokens && !(t.tokens[w.token].expires < w.at)
    && t.tokens[w.token].slug == w.slug && t.tokens[w.token].user in t.users
  }

  // ----- the interleaving -----

  function Idle(s: State, th: nat): State {
    s.(threads := s.threads - {th})
  }

  function Apply(s: State, a: Action): State {
    match a
    case Tick(now) => if now >= s.clock then s.(clock := now) else s
    case Launch(user, slug) =>
      if user in s.t.users then
        s.(t := s.t.(tokens := s.t.tokens[s.t.next := Token(user, slug, s.clock + TOKEN_TTL, false)],
                     next := s.t.next + 1))
      else s
    case Arrive(th, token, slug) =>
      if th !in s.threads then s.(threads := s.threads[th := Arrived(token, slug, s.clock)]) else s
    case Claim(th) =>
      if th in s.threads && s.threads[th].Arrived? then
        var w := s.threads[th];
        if w.token in s.t.tokens && !s.t.tokens[w.token].consumed then
          s.(t := ConsumeToken(s.t, w.token), threads := s.threads[th := Claimed(w.token, w.slug, w.at)])
        else Idle(s, th)
      else s
    case ReadBack(th) =>
      if th in s.threads && s.threads[th].Claimed? then
        var w := s.threads[th];
        if Passes(s.t, w) then s.(threads := s.threads[th := Checked(w.token, w.slug, w.at, s.t.tokens[w.token].user)])
        else Idle(s, th)
      else s
    case Mint(th) =>
      if th in s.threads && s.threads[th].Checked? then
        var w := s.threads[th];
        Idle(s.(t := InsertSession(s.t, w.user, w.slug, w.token, w.at)), th)
      else s
    case Crash(th) => Idle(s, th)
    case CloseSessions(user) => s.(t := s.t.(sessions := SessionsClosed(s.t.sessions, user)))
    case DeleteTokens(user) => s.(t := s.t.(tokens := TokensWithout(s.t.tokens, user)))
    case DeleteUser(user) =>
      s.(t := s.t.(users := s.t.users - {user}, tokens := TokensWithout(s.t.tokens, user),
                   sessions := map i | i in s.t.sessions && s.t.sessions[i].user != user :: s.t.sessions[i]))
    case PurgeTokens =>
      s.(t := s.t.(tokens :=
           map k | k in s.t.tokens && !(s.t.tokens[k].expires - TOKEN_TTL < s.clock - KEEP) :: s.t.tokens[k]))
  }

  function Init(users: set<nat>): State {
    State(Tables(users, map[], map[], 0), 0, map[])
  }

  function Run(s: State, acts: seq<Action>): State {
    if acts == [] then s else Apply(Run(s, acts[..|acts| - 1]), acts[|acts| - 1])
  }

  // ----- one session per token -----

  /** What is, or can still turn into, an app session minted from a token. */
  datatype Holder = OpenRow | InFlight(th: nat) | Minted(id: nat)

  predicate Holds(s: State, token: nat, h: Holder) {
    match h
    case OpenRow => token in s.t.tokens && !s.t.tokens[token].consumed
    case InFlight(th) => th in s.threads && !s.threads[th].Arrived? && s.threads[th].token == token
    case Minted(id) => id in s.t.sessions && s.t.sessions[id].origin == token
  }

  ghost predicate AtMostOne(s: State, token: nat) {
    forall g, h :: Holds(s, token, g) && Holds(s, token, h) ==> g == h
  }

  ghost predicate Fresh(s: State) {
    && (forall k :: k in s.t.tokens ==> k < s.t.next)
    && (forall i :: i in s.t.sessions ==> i < s.t.next && s.t.sessions[i].origin < s.t.next)
    && (forall th :: th in s.threads && !s.threads[th].Arrived? ==> s.threads[th].token < s.t.next)
  }

  lemma FreshStep(s: State, a: Action)
    requires Fresh(s)
    ensures Fresh(Apply(s, a)) && Apply(s, a).t.next >= s.t.next
  {
  }

  predicate Claims(s: State, a: Action) {
    && a.Claim? && a.th in s.threads && s.threads[a.th].Arrived?
    && s.threads[a.th].token in s.t.tokens && !s.t.tokens[s.threads[a.th].token].consumed
  }

  /** Where a holder of the state after `a` came from. */
  function Source(s: State, a: Action, h: Holder): Holder {
    if Claims(s, a) && h == InFlight(a.th) then OpenRow
    else if a.Mint? && a.th in s.threads && s.threads[a.th].Checked? && h == Minted(s.t.next) then InFlight(a.th)
    else h
  }

  lemma SourceHolds(s: State, a: Action, token: nat, h: Holder)
    requires Fresh(s) && Holds(Apply(s, a), token, h) && token < s.t.next
    ensures Holds(s, token, Source(s, a, h))
  {
  }

  lemma SourcesDiffer(s: State, a: Action, token: nat, g: Holder, h: Holder)
    requires Fresh(s) && Holds(Apply(s, a), token, g) && Holds(Apply(s, a), token, h) && g != h
    ensures Source(s, a, g) != Source(s, a, h)
  {
  }

  lemma HoldersStep(s: State, a: Action, token: nat)
    requires Fresh(s) && AtMostOne(s, token)
    ensures AtMostOne(Apply(s, a), token)
  {
    forall g, h | Holds(Apply(s, a), token, g) && Holds(Apply(s, a), token, h)
      ensures g == h
    {
      if token < s.t.next {
        SourceHolds(s, a, token, g);
        SourceHolds(s, a, token, h);
        if g != h {
          SourcesDiffer(s, a, token, g, h);
        }
      }
    }
  }

  lemma {:induction false} FreshRun(s: State, acts: seq<Action>)
    requires Fresh(s)
    ensures Fresh(Run(s, acts)) && Run(s, acts).t.next >= s.t.next
  {
    if acts != [] {
      FreshRun(s, acts[..|acts| - 1]);
      FreshStep(Run(s, acts[..|acts| - 1]), acts[|acts| - 1]);
    }
  }

  lemma {:induction false} TokenNeverSplits(s: State, acts: seq<Action>, token: nat)
    requires Fresh(s) && AtMostOne(s, token)
    ensures AtMostOne(Run(s, acts), token)
  {
    if acts != [] {
      TokenNeverSplits(s, acts[..|acts| - 1], token);
      FreshRun(s, acts[..|acts| - 1]);
      HoldersStep(Run(s, acts[..|acts| - 1]), acts[|acts| - 1], token);
    }
  }

  /**
   However many exchanges of one launch token run at once, they mint at most one app session; and once one
   is minted the token is consumed and no other claim of it is still under way.
   */
  lemma OneSessionPerToken(users: set<nat>, acts: seq<Action>, i: nat, j: nat)
    requires var t := Run(Init(users), acts).t;
             i in t.sessions && j in t.sessions && t.sessions[i].origin == t.sessions[j].origin
    ensures i == j
    ensures var s := Run(Init(users), acts);
            var token := s.t.sessions[i].origin;
            && (token in s.t.tokens ==> s.t.tokens[token].consumed)
            && forall th :: th in s.threads && !s.threads[th].Arrived? ==> s.threads[th].token != token
  {
    var s := Run(Init(users), acts);
    var token := s.t.sessions[i].origin;
    TokenNeverSplits(Init(users), acts, token);
    assert Holds(s, token, Minted(i)) && Holds(s, token, Minted(j));
    assert Holds(s, token, OpenRow) ==> OpenRow == Minted(i);
    forall th | th in s.threads && !s.threads[th].Arrived?
      ensures s.threads[th].token != token
    {
      assert Holds(s, token, InFlight(th)) ==> InFlight(th) == Minted(i);
    }
  }

  // ----- whose session it is -----

  /** Everything that descends from a token is for the user and app it was launched for, and was asked for in time. */
  ghost predicate Carries(s: State, token: nat, user: nat, slug: string, expires: int) {
    && (token in s.t.tokens ==>
          s.t.tokens[token].user == user && s.t.tokens[token].slug == slug && s.t.tokens[token].expires == expires)
    && (forall th :: th in s.threads && s.threads[th].token == token && s.threads[th].Checked? ==>
                       s.threads[th].user == user && s.threads[th].slug == slug && s.threads[th].at <= expires)
    && (forall i :: i in s.t.sessions && s.t.sessions[i].origin == token ==>
                      s.t.sessions[i].user == user && s.t.sessions[i].slug == slug && s.t.sessions[i].came <= expires)
  }

  lemma CarriesStep(s: State, a: Action, token: nat, user: nat, slug: string, expires: int)
    requires Fresh(s) && Carries(s, token, user, slug, expires) && token < s.t.next
    ensures Carries(Apply(s, a), token, user, slug, expires)
  {
    match a
    case ReadBack(th) =>
    case Mint(th) =>
    case CloseSessions(_) =>
    case DeleteTokens(_) =>
    case DeleteUser(_) =>
    case PurgeTokens =>
    case _ =>
  }

  lemma {:induction false} CarriesRun(s: State, acts: seq<Action>, token: nat, user: nat, slug: string, expires: int)
    requires Fresh(s) && Carries(s, token, user, slug, expires) && token < s.t.next
    ensures Carries(Run(s, acts), token, user, slug, expires)
  {
    if acts != [] {
      CarriesRun(s, acts[..|acts| - 1], token, user, slug, expires);
      FreshRun(s, acts[..|acts| - 1]);
      CarriesStep(Run(s, acts[..|acts| - 1]), acts[|acts| - 1], token, user, slug, expires);
    }
  }

  /**
   A session is only ever minted for the user and app its token was launched for, from a request within its
   minute.
   */
  lemma SessionBelongsToTheLaunch(users: set<nat>, acts: seq<Action>, user: nat, slug: string,
                                  rest: seq<Action>, i: nat)
    requires var s := Run(Init(users), acts);
             var end := Run(Apply(s, Launch(user, slug)), rest);
             user in s.t.users && i in end.t.sessions && end.t.sessions[i].origin == s.t.next
    ensures var s := Run(Init(users), acts);
            var session := Run(Apply(s, Launch(user, slug)), rest).t.sessions[i];
            session.user == user && session.slug == slug && session.came <= s.clock + TOKEN_TTL
  {
    var s := Run(Init(users), acts);
    FreshRun(Init(users), acts);
    FreshStep(s, Launch(user, slug));
    CarriesRun(Apply(s, Launch(user, slug)), rest, s.t.next, user, slug, s.clock + TOKEN_TTL);
  }

  // ----- row by row, what a step does and what it leaves alone -----

  /** The exchange behind the claim is the one that spends the token. */
  predicate Spends(s: State, a: Action, k: nat) {
    a.Claim? && a.th in s.threads && s.threads[a.th].Arrived? && s.threads[a.th].token == k
  }

  /** The step deletes a token row: a sign-out or deletion of its user, or the sweep a day after the launch. */
  predicate Sweeps(s: State, a: Action, w: Token) {
    || ((a.DeleteTokens? || a.DeleteUser?) && a.user == w.user)
    || (a.PurgeTokens? && w.expires - 60 < s.clock - 86_400)
  }

  /** One launch token through one step. */
  lemma TokenAfter(s: State, a: Action, k: nat)
    requires k in s.t.tokens && k < s.t.next
    ensures k in Apply(s, a).t.tokens <==> !Sweeps(s, a, s.t.tokens[k])
    ensures k in Apply(s, a).t.tokens ==>
              Apply(s, a).t.tokens[k] == s.t.tokens[k].(consumed := s.t.tokens[k].consumed || Spends(s, a, k))
  {
  }

  /** One app session through one step: closed by a sign-out of its user, gone with its user, else as it was. */
  lemma SessionAfter(s: State, a: Action, i: nat)
    requires i in s.t.sessions && i < s.t.next
    ensures i in Apply(s, a).t.sessions <==> !(a.DeleteUser? && a.user == s.t.sessions[i].user)
    ensures i in Apply(s, a).t.sessions ==>
              Apply(s, a).t.sessions[i] ==
              s.t.sessions[i].(revoked :=
                s.t.sessions[i].revoked || (a.CloseSessions? && a.user == s.t.sessions[i].user))
  {
  }

  /** Nothing comes into the tables but by a launch for a user there is, or an exchange that has been checked. */
  lemma RowsCome(s: State, a: Action, k: nat)
    ensures k !in s.t.tokens && k in Apply(s, a).t.tokens ==>
              a.Launch? && a.user in s.t.users && Apply(s, a).t.tokens[k] == Token(a.user, a.slug, s.clock + 60, false)
    ensures k !in s.t.sessions && k in Apply(s, a).t.sessions ==>
              a.Mint? && a.th in s.threads && s.threads[a.th].Checked?
    ensures a.Launch? && a.user in s.t.users ==> s.t.next in Apply(s, a).t.tokens
  {
  }

  /** Users go by their deletion, and the clock goes as time does; no other step moves either. */
  lemma UsersAndClockAfter(s: State, a: Action)
    ensures Apply(s, a).t.users == if a.DeleteUser? then s.t.users - {a.user} else s.t.users
    ensures Apply(s, a).clock == if a.Tick? && a.now > s.clock then a.now else s.clock
  {
  }

  /** An exchange is moved by its own steps alone; one that arrives where none is notes the time. */
  lemma ThreadsAreApart(s: State, a: Action, th: nat)
    ensures !((a.Arrive? || a.Claim? || a.ReadBack? || a.Mint? || a.Crash?) && a.th == th) ==>
              && (th in Apply(s, a).threads <==> th in s.threads)
              && (th in s.threads ==> Apply(s, a).threads[th] == s.threads[th])
    ensures a.Arrive? && a.th == th ==>
              && th in Apply(s, a).threads
              && Apply(s, a).threads[th] == if th in s.threads then s.threads[th] else Arrived(a.token, a.slug, s.clock)
    ensures a.Crash? && a.th == th ==> th !in Apply(s, a).threads
  {
  }

  /** What each step of an exchange asks for, whatever has happened since the one before, and what it leaves. */
  lemma OwnStepIs(s: State, th: nat)
    requires th in s.threads
    ensures var w := s.threads[th];
            match w
            case Arrived(token, slug, at) =>
              var after := Apply(s, Claim(th));
              && (th in after.threads <==> token in s.t.tokens && !s.t.tokens[token].consumed)
              && (th in after.threads ==> after.threads[th] == Claimed(token, slug, at))
            case Claimed(token, slug, at) =>
              var after := Apply(s, ReadBack(th));
              && (th in after.threads <==>
                  && token in s.t.tokens && at <= s.t.tokens[token].expires
                  && s.t.tokens[token].slug == slug && s.t.tokens[token].user in s.t.users)
              && (th in after.threads ==> after.threads[th] == Checked(token, slug, at, s.t.tokens[token].user))
            case Checked(token, slug, at, user) =>
              var after := Apply(s, Mint(th));
              && th !in after.threads && s.t.next in after.t.sessions
              && after.t.sessions[s.t.next] == AppSession(user, slug, false, token, at)
  {
  }

  /**
   An exchange whose steps come in a row, whatever else is under way: an unconsumed token is spent, and becomes a
   session exactly if it is in time, for this app, and of a user there is.
   */
  lemma Exchanged(s: State, th: nat, token: nat, slug: string)
    requires th !in s.threads
    ensures Apply(Apply(Apply(Apply(s, Arrive(th, token, slug)), Claim(th)), ReadBack(th)), Mint(th)) ==
            if token !in s.t.tokens || s.t.tokens[token].consumed then s
            else
              var w := s.t.tokens[token];
              var spent := s.t.(tokens := s.t.tokens[token := w.(consumed := true)]);
              if w.expires < s.clock || w.slug != slug || w.user !in s.t.users then s.(t := spent)
              else
                var row := AppSession(w.user, slug, false, token, s.clock);
                s.(t := spent.(sessions := s.t.sessions[s.t.next := row], next := s.t.next + 1))
  {
    var arrived := s.threads[th := Arrived(token, slug, s.clock)];
    assert arrived - {th} == s.threads;
    if token in s.t.tokens && !s.t.tokens[token].consumed {
      var claimed := arrived[th := Claimed(token, slug, s.clock)];
      assert claimed - {th} == s.threads;
      assert claimed[th := Checked(token, slug, s.clock, s.t.tokens[token].user)] - {th} == s.threads;
    }
  }

  /** A launch token is kept for a day after the launch, and swept at the first chance after that. */
  lemma LaunchIsSweptIff(s: State, user: nat, slug: string, later: int)
    requires user in s.t.users && s.clock <= later
    ensures var launched := Apply(s, Launch(user, slug));
            s.t.next in Apply(Apply(launched, Tick(later)), PurgeTokens).t.tokens <==> later <= s.clock + 86_400
  {
  }

  // ----- sign-out -----

  ghost predicate NoLaunch(acts: seq<Action>, user: nat) {
    forall i :: 0 <= i < |acts| ==> !(acts[i].Launch? && acts[i].user == user)
  }

  ghost predicate HasOpenSession(s: State, user: nat) {
    exists i :: i in s.t.sessions && s.t.sessions[i].user == user && !s.t.sessions[i].revoked
  }

  /** An exchange for `user` is past its claim and will pass its check, or is past that. */
  ghost predicate CanStillMint(s: State, user: nat, th: nat) {
    th in s.threads &&
    match s.threads[th]
    case Arrived(_, _, _) => false
    case Claimed(token, _, _) => Passes(s.t, s.threads[th]) && s.t.tokens[token].user == user
    case Checked(_, _, _, u) => u == user
  }

  /** An open token of `user` that an exchange can still turn into a session: one coming now, or one already waiting. */
  ghost predicate CanStillPass(s: State, user: nat, token: nat) {
    && token in s.t.tokens && !s.t.tokens[token].consumed && s.t.tokens[token].user == user && user in s.t.users
    && (s.clock <= s.t.tokens[token].expires
        || exists th :: && th in s.threads && s.threads[th].Arrived? && s.threads[th].token == token
                        && Passes(s.t, s.threads[th]))
  }

  ghost predicate NothingPending(s: State, user: nat) {
    && (forall th :: th in s.threads ==> !CanStillMint(s, user, th))
    && (forall token :: token in s.t.tokens ==> !CanStillPass(s, user, token))
  }

  lemma NoNewMint(s: State, a: Action, user: nat)
    requires NothingPending(s, user) && !(a.Launch? && a.user == user)
    ensures forall th :: th in Apply(s, a).threads ==> !CanStillMint(Apply(s, a), user, th)
  {
    var s' := Apply(s, a);
    forall th | th in s'.threads ensures !CanStillMint(s', user, th) {
      if th in s.threads {
        assert !CanStillMint(s, user, th);
        if a.Claim? && a.th == th && s.threads[th].token in s.t.tokens {
          assert !CanStillPass(s, user, s.threads[th].token);
        }
      }
    }
  }

  lemma NoNewPass(s: State, a: Action, user: nat)
    requires NothingPending(s, user) && !(a.Launch? && a.user == user)
    ensures forall token :: token in Apply(s, a).t.tokens ==> !CanStillPass(Apply(s, a), user, token)
  {
    var s' := Apply(s, a);
    forall token | token in s'.t.tokens ensures !CanStillPass(s', user, token) {
      if token in s.t.tokens {
        assert !CanStillPass(s, user, token);
      }
    }
  }

  /** No step but a launch gives a user something pending, or a session while nothing is. */
  lemma NothingPendingStep(s: State, a: Action, user: nat)
    requires NothingPending(s, user) && !HasOpenSession(s, user) && NoLaunch([a], user)
    ensures !HasOpenSession(Apply(s, a), user)
    ensures forall th :: th in Apply(s, a).threads ==> !CanStillMint(Apply(s, a), user, th)
    ensures forall token :: token in Apply(s, a).t.tokens ==> !CanStillPass(Apply(s, a), user, token)
  {
    assert a.Launch? ==> [a][0].user != user;
    if a.Mint? && a.th in s.threads {
      assert !CanStillMint(s, user, a.th);
    }
    NoNewMint(s, a, user);
    NoNewPass(s, a, user);
  }

  lemma {:induction false} NothingPendingLasts(s: State, acts: seq<Action>, user: nat)
    requires NothingPending(s, user) && !HasOpenSession(s, user) && NoLaunch(acts, user)
    ensures NothingPending(Run(s, acts), user) && !HasOpenSession(Run(s, acts), user)
  {
    if acts != [] {
      NothingPendingLasts(s, acts[..|acts| - 1], user);
      NothingPendingStep(Run(s, acts[..|acts| - 1]), acts[|acts| - 1], user);
    }
  }

  /**
   `sign_out_everywhere` as far as app sessions go: one transaction closes the sessions, a later one deletes the
   launch tokens, and `mid` is whatever happens between the two.
   */
  function SignedOut(s: State, user: nat, mid: seq<Action>): State {
    Apply(Run(Apply(s, CloseSessions(user)), mid), DeleteTokens(user))
  }

  ghost predicate SignOutIsFinal(s: State, user: nat) {
    forall mid, rest :: NoLaunch(mid, user) && NoLaunch(rest, user) ==>
                          !HasOpenSession(Run(SignedOut(s, user, mid), rest), user)
  }

  lemma ClosingKeepsPending(s: State, user: nat)
    requires NothingPending(s, user)
    ensures NothingPending(Apply(s, CloseSessions(user)), user) && !HasOpenSession(Apply(s, CloseSessions(user)), user)
  {
    var closed := Apply(s, CloseSessions(user));
    forall th | th in closed.threads ensures !CanStillMint(closed, user, th) {
      assert !CanStillMint(s, user, th);
    }
    forall token | token in closed.t.tokens ensures !CanStillPass(closed, user, token) {
      assert !CanStillPass(s, user, token);
    }
  }

  /** Deleting tokens closes no session. */
  lemma MintedStays(s: State, user: nat, mid: seq<Action>)
    requires NoLaunch(mid, user) && HasOpenSession(Run(Apply(s, CloseSessions(user)), mid), user)
    ensures !SignOutIsFinal(s, user)
  {
    var rest: seq<Action> := [];
    assert Run(SignedOut(s, user, mid), rest) == SignedOut(s, user, mid);
    assert NoLaunch(rest, user);
    var i :| i in Run(Apply(s, CloseSessions(user)), mid).t.sessions
             && Run(Apply(s, CloseSessions(user)), mid).t.sessions[i].user == user
             && !Run(Apply(s, CloseSessions(user)), mid).t.sessions[i].revoked;
    assert i in SignedOut(s, user, mid).t.sessions;
  }

  /** A checked exchange mints. */
  lemma MintOpens(s: State, user: nat, th: nat)
    requires th in s.threads && s.threads[th].Checked? && s.threads[th].user == user
    ensures HasOpenSession(Apply(s, Mint(th)), user)
  {
    assert s.t.next in Apply(s, Mint(th)).t.sessions;
  }

  lemma RunTwo(s: State, acts: seq<Action>)
    requires |acts| == 2
    ensures Run(s, acts) == Apply(Apply(s, acts[0]), acts[1])
  {
    assert acts[..1][..0] == [];
    assert Run(s, acts[..1]) == Apply(s, acts[0]);
  }

  lemma ThreadMints(s: State, user: nat, th: nat)
    requires th in s.threads && CanStillMint(s, user, th)
    ensures !SignOutIsFinal(s, user)
  {
    var closed := Apply(s, CloseSessions(user));
    if s.threads[th].Checked? {
      var mid := [Mint(th)];
      assert mid[..0] == [] && Run(closed, mid) == Apply(closed, Mint(th));
      MintOpens(closed, user, th);
      MintedStays(s, user, mid);
    } else {
      var mid := [ReadBack(th), Mint(th)];
      RunTwo(closed, mid);
      MintOpens(Apply(closed, ReadBack(th)), user, th);
      MintedStays(s, user, mid);
    }
  }

  /** An exchange that has arrived in time runs to its end. */
  lemma ArrivedMints(s: State, user: nat, th: nat)
    requires th in s.threads && s.threads[th].Arrived? && Passes(s.t, s.threads[th])
    requires !s.t.tokens[s.threads[th].token].consumed && s.t.tokens[s.threads[th].token].user == user
    ensures HasOpenSession(Apply(Apply(Apply(s, Claim(th)), ReadBack(th)), Mint(th)), user)
  {
    var w, s1 := s.threads[th], Apply(s, Claim(th));
    assert s1.threads[th] == Claimed(w.token, w.slug, w.at) && Passes(s1.t, s1.threads[th]);
    MintOpens(Apply(s1, ReadBack(th)), user, th);
  }

  /** A number above all thread numbers in use. */
  lemma {:induction false} SomeIdle(ids: set<nat>) returns (th: nat)
    ensures forall k :: k in ids ==> k < th
  {
    if ids == {} {
      th := 0;
    } else {
      var k :| k in ids;
      var above := SomeIdle(ids - {k});
      th := if above > k then above else k + 1;
      assert forall j :: j in ids ==> j == k || j in ids - {k};
    }
  }

  lemma RunThree(s: State, acts: seq<Action>)
    requires |acts| == 3
    ensures Run(s, acts) == Apply(Apply(Apply(s, acts[0]), acts[1]), acts[2])
  {
    assert acts[..1][..0] == [] && acts[..2][..1] == acts[..1];
    assert Run(s, acts[..1]) == Apply(s, acts[0]);
    assert Run(s, acts[..2]) == Apply(Run(s, acts[..1]), acts[1]);
  }

  lemma RunFour(s: State, acts: seq<Action>)
    requires |acts| == 4
    ensures Run(s, acts) == Apply(Apply(Apply(Apply(s, acts[0]), acts[1]), acts[2]), acts[3])
  {
    RunThree(s, acts[..3]);
  }

  lemma TokenPasses(s: State, user: nat, token: nat)
    requires token in s.t.tokens && CanStillPass(s, user, token)
    ensures !SignOutIsFinal(s, user)
  {
    var closed := Apply(s, CloseSessions(user));
    if s.clock <= s.t.tokens[token].expires {
      var th := SomeIdle(s.threads.Keys);
      assert th !in s.threads;
      var mid := [Arrive(th, token, s.t.tokens[token].slug), Claim(th), ReadBack(th), Mint(th)];
      RunFour(closed, mid);
      ArrivedMints(Apply(closed, mid[0]), user, th);
      MintedStays(s, user, mid);
    } else {
      var th :| th in s.threads && s.threads[th].Arrived? && s.threads[th].token == token && Passes(s.t, s.threads[th]);
      var mid := [Claim(th), ReadBack(th), Mint(th)];
      RunThree(closed, mid);
      ArrivedMints(closed, user, th);
      MintedStays(s, user, mid);
    }
  }

  /**
   Signing a user out leaves no open app session for good, short of a new launch and whatever falls between
   its two transactions, if and only if the user has no open token that could still pass and no exchange that can
   still mint when the sessions are closed.
   */
  lemma SignOutIsFinalIff(s: State, user: nat)
    ensures SignOutIsFinal(s, user) <==> NothingPending(s, user)
  {
    var closed := Apply(s, CloseSessions(user));
    if NothingPending(s, user) {
      forall mid, rest | NoLaunch(mid, user) && NoLaunch(rest, user)
        ensures !HasOpenSession(Run(SignedOut(s, user, mid), rest), user)
      {
        ClosingKeepsPending(s, user);
        NothingPendingLasts(closed, mid, user);
        NothingPendingStep(Run(closed, mid), DeleteTokens(user), user);
        NothingPendingLasts(SignedOut(s, user, mid), rest, user);
      }
    } else if th :| th in s.threads && CanStillMint(s, user, th) {
      ThreadMints(s, user, th);
    } else {
      var token :| token in s.t.tokens && CanStillPass(s, user, token);
      TokenPasses(s, user, token);
    }
  }

  /** No exchange for `user` is between its last check and its insert. */
  ghost predicate NothingChecked(s: State, user: nat) {
    forall th :: th in s.threads && s.threads[th].Checked? ==> s.threads[th].user != user
  }

  /**
   With nothing between the two transactions, only an exchange past its last check outlives the sign-out: one
   that has merely claimed finds its row gone and gives up.
   */
  lemma AtOnceSignOutIsFinalIff(s: State, user: nat)
    ensures NothingChecked(s, user) <==>
            forall rest :: NoLaunch(rest, user) ==> !HasOpenSession(Run(SignedOut(s, user, []), rest), user)
  {
    var out := SignedOut(s, user, []);
    assert Run(Apply(s, CloseSessions(user)), []) == Apply(s, CloseSessions(user));
    if NothingChecked(s, user) {
      forall rest | NoLaunch(rest, user)
        ensures !HasOpenSession(Run(out, rest), user)
      {
        NothingPendingLasts(out, rest, user);
      }
    } else {
      var th :| th in s.threads && s.threads[th].Checked? && s.threads[th].user == user;
      var rest := [Mint(th)];
      assert rest[..0] == [] && Run(out, rest) == Apply(out, Mint(th));
      MintOpens(out, user, th);
      assert NoLaunch(rest, user);
    }
  }

  // ----- the handlers, uninterrupted -----

  datatype Exchange = Refused | Session(id: nat)

  class Portal {
    var users: set<nat>
    var tokens: map<nat, Token>
    var sessions: map<nat, AppSession>
    var next: nat

    constructor (users: set<nat>)
      ensures Value() == Init(users).t
    {
      this.users, tokens, sessions, next := users, map[], map[], 0;
    }

    function Value(): Tables
      reads this
    {
      Tables(users, tokens, sessions, next)
    }

    /** `session_exchange`: its three transactions in a row. A token that fails a check is spent all the same. */
    method SessionExchange(token: nat, slug: string, now: int) returns (r: Exchange)
      modifies this
      ensures Value() ==
              Run(State(old(Value()), now, map[]), [Arrive(0, token, slug), Claim(0), ReadBack(0), Mint(0)]).t
      ensures r.Session? <==>
              && token in old(tokens) && !old(tokens)[token].consumed && now <= old(tokens)[token].expires
              && old(tokens)[token].slug == slug && old(tokens)[token].user in old(users)
      ensures r.Session? ==> r.id in sessions && sessions[r.id].user == old(tokens)[token].user
    {
      RunFour(State(Value(), now, map[]), [Arrive(0, token, slug), Claim(0), ReadBack(0), Mint(0)]);
      if token !in tokens || tokens[token].consumed {
        return Refused;
      }
      tokens := tokens[token := tokens[token].(consumed := true)];
      var launch := tokens[token];
      if launch.expires < now || launch.slug != slug || launch.user !in users {
        return Refused;
      }
      sessions := sessions[next := AppSession(launch.user, slug, false, token, now)];
      r := Session(next);
      next := next + 1;
    }

    /** `revoke_all_app_sessions_for_user`: the open rows of the user, one by one. */
    method RevokeAllAppSessions(user: nat) returns (count: nat)
      modifies this`sessions
      ensures sessions == SessionsClosed(old(sessions), user)
      ensures count == |set i | i in old(sessions) && old(sessions)[i].user == user && !old(sessions)[i].revoked|
    {
      var rows := set i | i in sessions && sessions[i].user == user && !sessions[i].revoked;
      ghost var all := rows;
      count := 0;
      while rows != {}
        invariant rows <= all && count + |rows| == |all|
        invariant sessions.Keys == old(sessions).Keys
        invariant forall i :: i in sessions ==>
                                sessions[i] ==
                                if i in all - rows then old(sessions)[i].(revoked := true) else old(sessions)[i]
        decreases |rows|
      {
        var i :| i in rows;
        sessions := sessions[i := sessions[i].(revoked := true)];
        rows, count := rows - {i}, count + 1;
      }
      forall i | i in sessions
        ensures sessions[i] == SessionsClosed(old(sessions), user)[i]
      {
        assert i in all - rows <==> i in all;
      }
    }
  }
}
