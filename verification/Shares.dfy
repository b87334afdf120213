/**
 `portal/shares.py`: public links, their view caps, and the per-user ceiling on rendered PDFs.

 Creating a PDF share holds one process-wide lock from the purge to the insert. Everything else, views,
 revocations, purges of dead links, file deletions, takes no lock and may fall between any two of
 its steps, including between two file sizes of the measuring loop. A viewer looks its link up by token and
 counts its view later, by the row id it read.
 */
module Shares {

  const MAX_PDF_BYTES := 10 * 1024 * 1024
  const MAX_PDF_SHARE_BYTES_PER_USER := 200 * 1024 * 1024
  const DEFAULT_TTL := 7 * 24 * 3600
  const MIN_TTL := 60
  const MAX_TTL := 90 * 24 * 3600
  const MAX_VIEW_LIMIT := 1000

  /** A row; `maxViews` 0 means no cap. Its file, for a PDF, is stored under the row's own token. */
  datatype Link = Link(rowId: nat, owner: nat, pdf: bool, expires: int, maxViews: nat, views: nat, revoked: bool)

  /** A request for `/s/<token>` that has looked its row up and holds what it read. */
  datatype Viewer = Viewer(token: nat, rowId: nat, maxViews: nat)

  /** Bookkeeping of the model: the cap a token was made with, and the views granted to its viewers so far. */
  datatype Book = Book(cap: nat, granted: nat)

  /** Where the lock-holding creation is. */
  datatype Creator =
    | Nobody
    | Purging(owner: nat, size: nat, ttl: int, maxViews: int)
    | Measuring(owner: nat, size: nat, ttl: int, maxViews: int, left: set<nat>, total: nat)
    | Writing(owner: nat, size: nat, ttl: int, maxViews: int)
    | Inserting(owner: nat, size: nat, ttl: int, maxViews: int, id: nat)

  /**
   `links` are the rows by token. Row ids are the database's: where `reuses` holds (SQLite without AUTOINCREMENT) a
   new row gets the largest id present plus one, elsewhere (a sequence) an id above every earlier one. `purges`
   holds the row ids that purges under way have found dead.
   */
  datatype Table = Table(links: map<nat, Link>, reuses: bool, lastId: nat, viewers: map<nat, Viewer>,
                         books: map<nat, Book>, purges: map<nat, set<nat>>)

  /** `files` holds the size of each stored PDF; tokens are fresh numbers from `next`. */
  datatype State = State(t: Table, files: map<nat, nat>, next: nat, clock: int, creator: Creator)

  datatype Action =
    | Tick(now: int)
    | Begin(owner: nat, size: nat, ttl: int, maxViews: int)
    | SelectRows
    | ReadSize(id: nat)
    | CheckTotal
    | WriteFile
    | InsertRow(rowId: nat)
    | Abort
    | ShareStorage(owner: nat, ttl: int, maxViews: int, rowId: nat)
    | Lookup(v: nat, id: nat)
    | Count(v: nat)
    | GiveUp(v: nat)
    | Revoke(id: nat)
    | DeleteRow(id: nat)
    | PurgeSelect(p: nat, everyone: bool, owner: nat)
    | PurgeDelete(p: nat)
    | DropFile(id: nat)
    | DeleteOwner(owner: nat)

  function ClampTtl(ttl: int): int {
    if ttl <= 0 then DEFAULT_TTL else if ttl < MIN_TTL then MIN_TTL else if ttl > MAX_TTL then MAX_TTL else ttl
  }

  function ClampViews(maxViews: int): nat {
    if maxViews <= 0 then 0 else if maxViews > MAX_VIEW_LIMIT then MAX_VIEW_LIMIT else maxViews
  }

  /** `lookup_active` finds the row serveable. */
  predicate Active(l: Link, now: int) {
    !l.revoked && !(l.expires < now) && !(l.maxViews != 0 && l.views >= l.maxViews)
  }

  /** The `WHERE` of `purge_expired_shares`. */
  predicate Dead(l: Link, now: int) {
    l.revoked || l.expires < now || (l.maxViews > 0 && l.views >= l.maxViews)
  }

  function SizeOf(files: map<nat, nat>, id: nat): nat {
    if id in files then files[id] else 0
  }

  function PdfRows(s: State, owner: nat): set<nat> {
    set id | id in s.t.links && s.t.links[id].pdf && s.t.links[id].owner == owner
  }

  /** The database may give a new row this id. */
  predicate MayTake(t: Table, rowId: nat) {
    if t.reuses then
      && (forall id :: id in t.links ==> t.links[id].rowId < rowId)
      && (rowId == 1 || exists id :: id in t.links && t.links[id].rowId + 1 == rowId)
    else rowId > t.lastId
  }

  function AddRow(t: Table, id: nat, row: Link): Table {
    t.(links := t.links[id := row], books := t.books[id := Book(row.maxViews, 0)],
       lastId := if row.rowId > t.lastId then row.rowId else t.lastId)
  }

  function NewRow(rowId: nat, owner: nat, pdf: bool, now: int, ttl: int, maxViews: int): Link {
    Link(rowId, owner, pdf, now + ClampTtl(ttl), ClampViews(maxViews), 0, false)
  }

  /** The row the lock holder inserts. */
  function Inserted(s: State, rowId: nat): State
    requires s.creator.Inserting?
  {
    var c := s.creator;
    s.(t := AddRow(s.t, c.id, NewRow(rowId, c.owner, true, s.clock, c.ttl, c.maxViews)), creator := Nobody)
  }

  /** The UPDATE of `record_view` changes this row: it goes by the row id and the cap the viewer holds. */
  predicate Counts(l: Link, w: Viewer) {
    l.rowId == w.rowId && (w.maxViews == 0 || l.views < w.maxViews)
  }

  function Counted(links: map<nat, Link>, w: Viewer): map<nat, Link> {
    map id | id in links :: if Counts(links[id], w) then links[id].(views := links[id].views + 1) else links[id]
  }

  predicate CountsSome(links: map<nat, Link>, w: Viewer) {
    exists id :: id in links && Counts(links[id], w)
  }

  function Granting(books: map<nat, Book>, id: nat): map<nat, Book> {
    if id in books then books[id := books[id].(granted := books[id].granted + 1)] else books
  }

  /** The row ids `purge_expired_shares` selects, for one user or for all. */
  function DeadIds(links: map<nat, Link>, now: int, everyone: bool, owner: nat): set<nat> {
    set id | id in links && Dead(links[id], now) && (everyone || links[id].owner == owner) :: links[id].rowId
  }

  /** Its DELETE, which goes by row id. */
  function WithoutIds(links: map<nat, Link>, ids: set<nat>): map<nat, Link> {
    map id | id in links && links[id].rowId !in ids :: links[id]
  }

  /** The steps that change the table alone, other than inserting. */
  function Touch(t: Table, a: Action, now: int): Table {
    match a
    case Lookup(v, id) =>
      if v !in t.viewers && id in t.links && Active(t.links[id], now) then
        t.(viewers := t.viewers[v := Viewer(id, t.links[id].rowId, t.links[id].maxViews)])
      else t
    case Count(v) =>
      if v in t.viewers then
        var w := t.viewers[v];
        t.(links := Counted(t.links, w), viewers := t.viewers - {v},
           books := if CountsSome(t.links, w) then Granting(t.books, w.token) else t.books)
      else t
    case GiveUp(v) => t.(viewers := t.viewers - {v})
    case Revoke(id) => if id in t.links then t.(links := t.links[id := t.links[id].(revoked := true)]) else t
    case DeleteRow(id) => t.(links := t.links - {id})
    case PurgeSelect(p, everyone, owner) =>
      if p in t.purges then t else t.(purges := t.purges[p := DeadIds(t.links, now, everyone, owner)])
    case PurgeDelete(p) =>
      if p in t.purges then t.(links := WithoutIds(t.links, t.purges[p]), purges := t.purges - {p}) else t
    case DeleteOwner(owner) => t.(links := map id | id in t.links && t.links[id].owner != owner :: t.links[id])
    case _ => t
  }

  function Apply(s: State, a: Action): State {
    match a
    case Tick(now) => if now >= s.clock then s.(clock := now) else s
    case Begin(owner, size, ttl, maxViews) =>
      if s.creator.Nobody? && size <= MAX_PDF_BYTES then s.(creator := Purging(owner, size, ttl, maxViews)) else s
    case SelectRows =>
      if s.creator.Purging? then
        var c := s.creator;
        s.(creator := Measuring(c.owner, c.size, c.ttl, c.maxViews, PdfRows(s, c.owner), 0))
      else s
    case ReadSize(id) =>
      if s.creator.Measuring? && id in s.creator.left then
        var c := s.creator;
        s.(creator := c.(left := c.left - {id}, total := c.total + SizeOf(s.files, id)))
      else s
    case CheckTotal =>
      if s.creator.Measuring? && s.creator.left == {} then
        var c := s.creator;
        if c.total + c.size > MAX_PDF_SHARE_BYTES_PER_USER then s.(creator := Nobody)
        else s.(creator := Writing(c.owner, c.size, c.ttl, c.maxViews))
      else s
    case WriteFile =>
      if s.creator.Writing? then
        var c := s.creator;
        s.(files := s.files[s.next := c.size], next := s.next + 1,
           creator := Inserting(c.owner, c.size, c.ttl, c.maxViews, s.next))
      else s
    case InsertRow(rowId) =>
      if s.creator.Inserting? && MayTake(s.t, rowId) then Inserted(s, rowId) else s
    case Abort => s.(creator := Nobody)
    case ShareStorage(owner, ttl, maxViews, rowId) =>
      if MayTake(s.t, rowId) then
        s.(t := AddRow(s.t, s.next, NewRow(rowId, owner, false, s.clock, ttl, maxViews)), next := s.next + 1)
      else s
    case DropFile(id) => s.(files := s.files - {id})
    case _ => s.(t := Touch(s.t, a, s.clock))
  }

  function Init(reuses: bool): State {
    State(Table(map[], reuses, 0, map[], map[], map[]), map[], 0, 0, Nobody)
  }

  function Run(s: State, acts: seq<Action>): State {
    if acts == [] then s else Apply(Run(s, acts[..|acts| - 1]), acts[|acts| - 1])
  }

  /** The step inserts a row. */
  predicate Inserts(s: State, a: Action) {
    (a.ShareStorage? || (a.InsertRow? && s.creator.Inserting?)) && MayTake(s.t, a.rowId)
  }

  /** The token and the row it inserts. */
  function NewToken(s: State, a: Action): nat {
    if a.InsertRow? && s.creator.Inserting? then s.creator.id else s.next
  }

  function TheRow(s: State, a: Action): Link
    requires Inserts(s, a)
  {
    if a.ShareStorage? then NewRow(a.rowId, a.owner, false, s.clock, a.ttl, a.maxViews)
    else NewRow(a.rowId, s.creator.owner, true, s.clock, s.creator.ttl, s.creator.maxViews)
  }

  /** What a step does to the table. */
  lemma TableAfter(s: State, a: Action)
    ensures Apply(s, a).t == if Inserts(s, a) then AddRow(s.t, NewToken(s, a), TheRow(s, a)) else Touch(s.t, a, s.clock)
  {
  }

  lemma ClockAdvances(s: State, a: Action)
    ensures s.clock <= Apply(s, a).clock && s.next <= Apply(s, a).next
  {
  }

  /** What a link can become, unless it is deleted: counted on or revoked. */
  predicate Aged(now: Link, was: Link) {
    && now.rowId == was.rowId && now.owner == was.owner && now.pdf == was.pdf && now.expires == was.expires
    && now.maxViews == was.maxViews && now.views >= was.views && (was.revoked ==> now.revoked)
  }

  lemma TouchedLink(t: Table, a: Action, now: int, id: nat)
    requires id in Touch(t, a, now).links
    ensures id in t.links && Aged(Touch(t, a, now).links[id], t.links[id])
    ensures !a.Count? ==> Touch(t, a, now).links[id].views == t.links[id].views
  {
  }

  lemma LinkAfter(s: State, a: Action, id: nat)
    requires id in Apply(s, a).t.links && !(Inserts(s, a) && id == NewToken(s, a))
    ensures id in s.t.links && Aged(Apply(s, a).t.links[id], s.t.links[id])
    ensures !a.Count? ==> Apply(s, a).t.links[id].views == s.t.links[id].views
  {
    TableAfter(s, a);
    if !Inserts(s, a) {
      TouchedLink(s.t, a, s.clock, id);
    }
  }

  // ----- sums of file sizes -----

  ghost function Sum(ids: set<nat>, files: map<nat, nat>): nat {
    if ids == {} then 0 else
    var id :| id in ids;
    SizeOf(files, id) + Sum(ids - {id}, files)
  }

  lemma {:induction false} SumWithout(ids: set<nat>, files: map<nat, nat>, id: nat)
    requires id in ids
    ensures Sum(ids, files) == SizeOf(files, id) + Sum(ids - {id}, files)
  {
    var j :| j in ids && Sum(ids, files) == SizeOf(files, j) + Sum(ids - {j}, files);
    if j != id {
      SumWithout(ids - {j}, files, id);
      SumWithout(ids - {id}, files, j);
      assert ids - {j} - {id} == ids - {id} - {j};
    }
  }

  /** Fewer rows and smaller files weigh less. */
  lemma {:induction false} SumShrinks(a: set<nat>, b: set<nat>, f: map<nat, nat>, g: map<nat, nat>)
    requires a <= b && forall id :: id in a ==> SizeOf(f, id) <= SizeOf(g, id)
    ensures Sum(a, f) <= Sum(b, g)
    decreases |a|
  {
    if a != {} {
      var id :| id in a;
      SumWithout(a, f, id);
      SumWithout(b, g, id);
      SumShrinks(a - {id}, b - {id}, f, g);
    }
  }

  // ----- the ceiling -----

  /** A user's rows with the bytes of their files. */
  ghost function ShareBytes(s: State, owner: nat): nat {
    Sum(PdfRows(s, owner), s.files)
  }

  ghost predicate Fresh(s: State) {
    && (forall id :: id in s.t.links || id in s.files || id in s.t.books ==> id < s.next)
    && s.t.links.Keys <= s.t.books.Keys
    && (s.creator.Inserting? ==> s.creator.id < s.next && s.creator.id !in s.t.books)
  }

  /** What the lock holder knows: the rows it has read weigh no more than it has counted. */
  ghost predicate CreatorSound(s: State) {
    match s.creator
    case Measuring(owner, _, _, _, left, total) => Sum(PdfRows(s, owner) - left, s.files) <= total
    case Writing(owner, size, _, _) => ShareBytes(s, owner) + size <= MAX_PDF_SHARE_BYTES_PER_USER
    case Inserting(owner, size, _, _, id) =>
      ShareBytes(s, owner) + size <= MAX_PDF_SHARE_BYTES_PER_USER && SizeOf(s.files, id) <= size
    case _ => true
  }

  ghost predicate Good(s: State) {
    Fresh(s) && CreatorSound(s) && forall owner :: ShareBytes(s, owner) <= MAX_PDF_SHARE_BYTES_PER_USER
  }

  /** The step inserts the row of the lock holder. */
  predicate InsertsPdf(s: State, a: Action) {
    a.InsertRow? && s.creator.Inserting? && MayTake(s.t, a.rowId)
  }

  lemma FilesUntouched(s: State, a: Action)
    requires !a.WriteFile? && !a.DropFile?
    ensures Apply(s, a).files == s.files
  {
  }

  /** A file is written once. */
  lemma FileKept(s: State, a: Action, id: nat)
    requires id < s.next
    ensures SizeOf(Apply(s, a).files, id) <= SizeOf(s.files, id)
  {
    if !a.WriteFile? && !a.DropFile? {
      FilesUntouched(s, a);
    }
  }

  lemma RowsShrink(s: State, a: Action, owner: nat)
    requires Fresh(s) && !InsertsPdf(s, a)
    ensures PdfRows(Apply(s, a), owner) <= PdfRows(s, owner)
    ensures forall id :: id in PdfRows(s, owner) ==> SizeOf(Apply(s, a).files, id) <= SizeOf(s.files, id)
  {
    forall id | id in PdfRows(Apply(s, a), owner) ensures id in PdfRows(s, owner) {
      LinkAfter(s, a, id);
    }
    forall id | id in PdfRows(s, owner) ensures SizeOf(Apply(s, a).files, id) <= SizeOf(s.files, id) {
      FileKept(s, a, id);
    }
  }

  /** No step but that adds to a user's rows or enlarges their files, read or unread. */
  lemma OnlyInsertAdds(s: State, a: Action, owner: nat, read: set<nat>)
    requires Fresh(s) && !InsertsPdf(s, a)
    ensures ShareBytes(Apply(s, a), owner) <= ShareBytes(s, owner)
    ensures Sum(PdfRows(Apply(s, a), owner) - read, Apply(s, a).files) <= Sum(PdfRows(s, owner) - read, s.files)
  {
    RowsShrink(s, a, owner);
    SumShrinks(PdfRows(Apply(s, a), owner), PdfRows(s, owner), Apply(s, a).files, s.files);
    SumShrinks(PdfRows(Apply(s, a), owner) - read, PdfRows(s, owner) - read, Apply(s, a).files, s.files);
  }

  lemma TouchedKeys(t: Table, a: Action, now: int)
    ensures Touch(t, a, now).links.Keys <= t.links.Keys && Touch(t, a, now).books.Keys == t.books.Keys
  {
  }

  /** Where the tokens are drawn. */
  lemma CreatorAfter(s: State, a: Action)
    ensures var c := Apply(s, a).creator;
            c.Inserting? ==>
              c == s.creator || (a.WriteFile? && c.id == s.next < Apply(s, a).next && Apply(s, a).t == s.t)
    ensures s.creator.Inserting? && Inserts(s, a) && a.InsertRow? ==> !Apply(s, a).creator.Inserting?
    ensures a.ShareStorage? && Inserts(s, a) ==> Apply(s, a).next == s.next + 1
    ensures forall id :: id in Apply(s, a).files ==> id in s.files || id < Apply(s, a).next
  {
  }

  lemma FreshStep(s: State, a: Action)
    requires Fresh(s)
    ensures Fresh(Apply(s, a)) && Apply(s, a).next >= s.next
  {
    TableAfter(s, a);
    TouchedKeys(s.t, a, s.clock);
    CreatorAfter(s, a);
    ClockAdvances(s, a);
  }

  lemma InsertFits(s: State, rowId: nat)
    requires CreatorSound(s) && s.creator.Inserting? && s.creator.id !in s.t.links
    ensures ShareBytes(Inserted(s, rowId), s.creator.owner) <= MAX_PDF_SHARE_BYTES_PER_USER
    ensures forall o :: o != s.creator.owner ==> ShareBytes(Inserted(s, rowId), o) == ShareBytes(s, o)
  {
    var c, s' := s.creator, Inserted(s, rowId);
    assert PdfRows(s', c.owner) == PdfRows(s, c.owner) + {c.id};
    SumWithout(PdfRows(s', c.owner), s.files, c.id);
    assert PdfRows(s', c.owner) - {c.id} == PdfRows(s, c.owner);
    forall o | o != c.owner
      ensures ShareBytes(s', o) == ShareBytes(s, o)
    {
      assert PdfRows(s', o) == PdfRows(s, o);
    }
  }

  /** The measuring loop: each size it reads covers one more row. */
  lemma ReadCovers(s: State, id: nat)
    requires Fresh(s) && CreatorSound(s) && s.creator.Measuring? && id in s.creator.left
    ensures CreatorSound(Apply(s, ReadSize(id)))
  {
    var c := s.creator;
    var rows := PdfRows(s, c.owner);
    assert PdfRows(Apply(s, ReadSize(id)), c.owner) == rows;
    if id in rows {
      SumWithout(rows - (c.left - {id}), s.files, id);
      assert rows - (c.left - {id}) - {id} == rows - c.left;
    } else {
      assert rows - (c.left - {id}) == rows - c.left;
    }
  }

  /** A step of somebody else. */
  lemma BystanderStep(s: State, a: Action)
    requires Good(s) && Apply(s, a).creator == s.creator && !InsertsPdf(s, a)
    ensures CreatorSound(Apply(s, a))
  {
    match s.creator
    case Measuring(owner, _, _, _, left, _) => OnlyInsertAdds(s, a, owner, left);
    case Writing(owner, _, _, _) => OnlyInsertAdds(s, a, owner, {});
    case Inserting(owner, _, _, _, id) =>
      OnlyInsertAdds(s, a, owner, {});
      FileKept(s, a, id);
    case _ =>
  }

  lemma CreatorStep(s: State, a: Action)
    requires Good(s)
    ensures CreatorSound(Apply(s, a))
  {
    match a
    case ReadSize(id) =>
      if s.creator.Measuring? && id in s.creator.left {
        ReadCovers(s, id);
      }
    case SelectRows =>
      if s.creator.Purging? {
        assert PdfRows(s, s.creator.owner) - PdfRows(s, s.creator.owner) == {};
      }
    case CheckTotal =>
      if s.creator.Measuring? {
        assert PdfRows(s, s.creator.owner) - {} == PdfRows(s, s.creator.owner);
      }
    case WriteFile =>
      if s.creator.Writing? {
        OnlyInsertAdds(s, a, s.creator.owner, {});
      }
    case InsertRow(_) =>
    case Begin(_, _, _, _) =>
    case Abort =>
    case _ => BystanderStep(s, a);
  }

  lemma GoodStep(s: State, a: Action)
    requires Good(s)
    ensures Good(Apply(s, a))
  {
    FreshStep(s, a);
    CreatorStep(s, a);
    forall owner
      ensures ShareBytes(Apply(s, a), owner) <= MAX_PDF_SHARE_BYTES_PER_USER
    {
      if InsertsPdf(s, a) {
        InsertFits(s, a.rowId);
      } else {
        OnlyInsertAdds(s, a, owner, {});
      }
    }
  }

  lemma {:induction false} GoodRun(s: State, acts: seq<Action>)
    requires Good(s)
    ensures Good(Run(s, acts)) && Run(s, acts).next >= s.next
  {
    if acts != [] {
      GoodRun(s, acts[..|acts| - 1]);
      FreshStep(Run(s, acts[..|acts| - 1]), acts[|acts| - 1]);
      GoodStep(Run(s, acts[..|acts| - 1]), acts[|acts| - 1]);
    }
  }

  lemma InitIsGood(reuses: bool)
    ensures Good(Init(reuses))
  {
    forall owner ensures ShareBytes(Init(reuses), owner) == 0 {
      assert PdfRows(Init(reuses), owner) == {};
    }
  }

  /** Under every interleaving, the PDF files of each user's rows never weigh more than the ceiling. */
  lemma CeilingHolds(reuses: bool, acts: seq<Action>, owner: nat)
    ensures ShareBytes(Run(Init(reuses), acts), owner) <= MAX_PDF_SHARE_BYTES_PER_USER
  {
    InitIsGood(reuses);
    GoodRun(Init(reuses), acts);
  }

  // ----- death is final -----

  /** No row for the token, or one the handler refuses. */
  predicate Unserveable(s: State, id: nat) {
    id in s.t.links ==> !Active(s.t.links[id], s.clock)
  }

  lemma DeadStep(s: State, a: Action, id: nat)
    requires Fresh(s) && Unserveable(s, id) && id < s.next
    requires !(s.creator.Inserting? && s.creator.id == id)
    ensures var end := Apply(s, a);
            && Fresh(end) && Unserveable(end, id) && end.next >= s.next
            && !(end.creator.Inserting? && end.creator.id == id)
  {
    FreshStep(s, a);
    ClockAdvances(s, a);
    if id in Apply(s, a).t.links {
      LinkAfter(s, a, id);
    }
  }

  lemma {:induction false} DeadStaysDead(s: State, acts: seq<Action>, id: nat)
    requires Fresh(s) && Unserveable(s, id) && id < s.next
    requires !(s.creator.Inserting? && s.creator.id == id)
    ensures var end := Run(s, acts);
            && Fresh(end) && Unserveable(end, id) && end.next >= s.next
            && !(end.creator.Inserting? && end.creator.id == id)
  {
    if acts != [] {
      DeadStaysDead(s, acts[..|acts| - 1], id);
      DeadStep(Run(s, acts[..|acts| - 1]), acts[|acts| - 1], id);
    }
  }

  /** A link that once existed and is refused, for whatever reason, is refused for ever after. */
  lemma OnceRefusedAlwaysRefused(reuses: bool, acts: seq<Action>, rest: seq<Action>, id: nat)
    requires var s := Run(Init(reuses), acts); id in s.t.links && !Active(s.t.links[id], s.clock)
    ensures Unserveable(Run(Run(Init(reuses), acts), rest), id)
  {
    InitIsGood(reuses);
    GoodRun(Init(reuses), acts);
    DeadStaysDead(Run(Init(reuses), acts), rest, id);
  }

  // ----- the table, step by step -----

  /** Row ids are unique and at most the highest given out, and a row's cap is its token's. */
  ghost predicate RowsKeyed(t: Table) {
    && (forall i, j :: i in t.links && j in t.links && t.links[i].rowId == t.links[j].rowId ==> i == j)
    && (forall i :: i in t.links ==>
                      t.links[i].rowId <= t.lastId && i in t.books && t.links[i].maxViews == t.books[i].cap)
  }

  /** A viewer holds an id that was given out, and the cap of its token. */
  ghost predicate ViewersKeyed(t: Table) {
    forall v :: v in t.viewers ==>
                  && t.viewers[v].rowId <= t.lastId && t.viewers[v].token in t.books
                  && t.books[t.viewers[v].token].cap == t.viewers[v].maxViews
  }

  /** The ids of purges under way were given out. */
  ghost predicate PurgesKeyed(t: Table) {
    forall p, r :: p in t.purges && r in t.purges[p] ==> r <= t.lastId
  }

  ghost predicate Keyed(s: State) {
    Fresh(s) && RowsKeyed(s.t) && ViewersKeyed(s.t) && PurgesKeyed(s.t)
  }

  /** Caps stay as they are, and no token is forgotten. */
  ghost predicate SameCaps(now: map<nat, Book>, was: map<nat, Book>) {
    was.Keys <= now.Keys && forall i :: i in was ==> now[i].cap == was[i].cap
  }

  lemma TouchedBooks(t: Table, a: Action, now: int)
    ensures var t' := Touch(t, a, now);
            && SameCaps(t'.books, t.books) && t'.lastId == t.lastId && t'.reuses == t.reuses
            && (!a.Count? ==> t'.books == t.books)
  {
  }

  lemma TouchedViewer(t: Table, a: Action, now: int, v: nat)
    requires v in Touch(t, a, now).viewers
    ensures || (v in t.viewers && Touch(t, a, now).viewers[v] == t.viewers[v])
            || (&& a.Lookup? && a.id in t.links && Touch(t, a, now).links == t.links
                && Touch(t, a, now).viewers[v] == Viewer(a.id, t.links[a.id].rowId, t.links[a.id].maxViews))
  {
  }

  lemma TouchedPurge(t: Table, a: Action, now: int, p: nat)
    requires p in Touch(t, a, now).purges
    ensures || (p in t.purges && Touch(t, a, now).purges[p] == t.purges[p])
            || (&& a.PurgeSelect? && Touch(t, a, now).purges[p] == DeadIds(t.links, now, a.everyone, a.owner)
                && Touch(t, a, now).links == t.links)
  {
  }

  lemma TouchedRowsKeyed(t: Table, a: Action, now: int)
    requires RowsKeyed(t)
    ensures RowsKeyed(Touch(t, a, now))
  {
    TouchedBooks(t, a, now);
    forall i | i in Touch(t, a, now).links ensures i in t.links && Aged(Touch(t, a, now).links[i], t.links[i]) {
      TouchedLink(t, a, now, i);
    }
  }

  lemma TouchedViewersKeyed(t: Table, a: Action, now: int)
    requires RowsKeyed(t) && ViewersKeyed(t)
    ensures ViewersKeyed(Touch(t, a, now))
  {
    TouchedBooks(t, a, now);
    var t' := Touch(t, a, now);
    forall v | v in t'.viewers
      ensures t'.viewers[v].rowId <= t'.lastId && t'.viewers[v].token in t'.books
              && t'.books[t'.viewers[v].token].cap == t'.viewers[v].maxViews
    {
      TouchedViewer(t, a, now, v);
    }
  }

  lemma TouchedPurgesKeyed(t: Table, a: Action, now: int)
    requires RowsKeyed(t) && PurgesKeyed(t)
    ensures PurgesKeyed(Touch(t, a, now))
  {
    TouchedBooks(t, a, now);
    forall p, r | p in Touch(t, a, now).purges && r in Touch(t, a, now).purges[p] ensures r <= t.lastId {
      TouchedPurge(t, a, now, p);
    }
  }

  /** A new row has an id of its own, above all those given out where ids are not reused. */
  lemma AddedRowsKeyed(t: Table, id: nat, row: Link)
    requires RowsKeyed(t) && id !in t.books && MayTake(t, row.rowId)
    ensures RowsKeyed(AddRow(t, id, row))
  {
    assert forall i :: i in t.links ==> t.links[i].rowId != row.rowId;
  }

  lemma AddedRestKeyed(t: Table, id: nat, row: Link)
    requires ViewersKeyed(t) && PurgesKeyed(t) && id !in t.books
    ensures ViewersKeyed(AddRow(t, id, row)) && PurgesKeyed(AddRow(t, id, row))
  {
  }

  lemma KeyedStep(s: State, a: Action)
    requires Keyed(s)
    ensures Keyed(Apply(s, a)) && Apply(s, a).t.reuses == s.t.reuses
  {
    FreshStep(s, a);
    TableAfter(s, a);
    if Inserts(s, a) {
      AddedRowsKeyed(s.t, NewToken(s, a), TheRow(s, a));
      AddedRestKeyed(s.t, NewToken(s, a), TheRow(s, a));
    } else {
      TouchedBooks(s.t, a, s.clock);
      TouchedRowsKeyed(s.t, a, s.clock);
      TouchedViewersKeyed(s.t, a, s.clock);
      TouchedPurgesKeyed(s.t, a, s.clock);
    }
  }

  // ----- view caps -----

  /** Every row's counter is the views granted, and no token had more of them than its cap, deleted rows included. */
  ghost predicate Balanced(links: map<nat, Link>, books: map<nat, Book>) {
    && (forall i :: i in links ==> i in books && links[i].views == books[i].granted)
    && (forall i :: i in books && books[i].cap > 0 ==> books[i].granted <= books[i].cap)
  }

  ghost predicate Exact(t: Table) {
    Balanced(t.links, t.books)
  }

  /** The row id the viewer holds now belongs to another link, whose counter would take its view. */
  predicate Stray(links: map<nat, Link>, w: Viewer, id: nat) {
    id in links && id != w.token && Counts(links[id], w)
  }

  ghost predicate NoStray(t: Table) {
    forall v, id :: v in t.viewers && id in t.links ==> !Stray(t.links, t.viewers[v], id)
  }

  predicate Held(viewers: map<nat, Viewer>, rowId: nat) {
    exists v :: v in viewers && viewers[v].rowId == rowId
  }

  /** The step inserts a row under an id that a viewer in flight still holds. */
  predicate Clash(s: State, a: Action) {
    Inserts(s, a) && Held(s.t.viewers, a.rowId)
  }

  ghost predicate ClashFree(s: State, acts: seq<Action>) {
    acts == [] || (ClashFree(s, acts[..|acts| - 1]) && !Clash(Run(s, acts[..|acts| - 1]), acts[|acts| - 1]))
  }

  /** A viewer that comes holds the id of its own row, which no other row has. */
  lemma NewViewerIsNoStray(t: Table, id: nat, i: nat)
    requires RowsKeyed(t) && id in t.links && i in t.links
    ensures !Stray(t.links, Viewer(id, t.links[id].rowId, t.links[id].maxViews), i)
  {
  }

  lemma TouchedNoStray(t: Table, a: Action, now: int)
    requires RowsKeyed(t) && NoStray(t)
    ensures NoStray(Touch(t, a, now))
  {
    var t' := Touch(t, a, now);
    forall v, i | v in t'.viewers && i in t'.links ensures !Stray(t'.links, t'.viewers[v], i) {
      TouchedLink(t, a, now, i);
      TouchedViewer(t, a, now, v);
      if v in t.viewers && t'.viewers[v] == t.viewers[v] {
        assert !Stray(t.links, t.viewers[v], i);
      } else {
        NewViewerIsNoStray(t, a.id, i);
      }
    }
  }

  lemma AddedNoStray(t: Table, id: nat, row: Link)
    requires NoStray(t) && !Held(t.viewers, row.rowId)
    ensures NoStray(AddRow(t, id, row))
  {
    var t' := AddRow(t, id, row);
    forall v, i | v in t'.viewers && i in t'.links ensures !Stray(t'.links, t'.viewers[v], i) {
      assert v in t.viewers && t.viewers[v].rowId != row.rowId;
      assert i != id ==> !Stray(t.links, t.viewers[v], i);
    }
  }

  lemma NoStrayStep(s: State, a: Action)
    requires Keyed(s) && NoStray(s.t) && !Clash(s, a)
    ensures NoStray(Apply(s, a).t)
  {
    TableAfter(s, a);
    if Inserts(s, a) {
      AddedNoStray(s.t, NewToken(s, a), TheRow(s, a));
    } else {
      TouchedNoStray(s.t, a, s.clock);
    }
  }

  /** A view is counted on the viewer's own row or on none. */
  lemma CountedOnOwn(t: Table, v: nat)
    requires RowsKeyed(t) && NoStray(t) && v in t.viewers
    ensures forall i :: i in t.links && Counts(t.links[i], t.viewers[v]) ==> i == t.viewers[v].token
  {
    forall i | i in t.links && Counts(t.links[i], t.viewers[v]) ensures i == t.viewers[v].token {
      assert !Stray(t.links, t.viewers[v], i);
    }
  }

  lemma CountTouches(t: Table, v: nat, now: int)
    requires v in t.viewers
    ensures var w, t' := t.viewers[v], Touch(t, Count(v), now);
            && t'.links == Counted(t.links, w)
            && t'.books == if CountsSome(t.links, w) then Granting(t.books, w.token) else t.books
  {
  }

  lemma CountOnRow(links: map<nat, Link>, books: map<nat, Book>, w: Viewer)
    requires w.token in books && books[w.token].cap == w.maxViews
    requires Balanced(links, books) && forall i :: i in links && Counts(links[i], w) ==> i == w.token
    ensures Balanced(Counted(links, w), if CountsSome(links, w) then Granting(books, w.token) else books)
  {
    if CountsSome(links, w) {
      var id :| id in links && Counts(links[id], w);
    }
  }

  lemma ExactCount(t: Table, v: nat, now: int)
    requires Exact(t) && RowsKeyed(t) && ViewersKeyed(t) && NoStray(t) && v in t.viewers
    ensures Exact(Touch(t, Count(v), now))
  {
    CountedOnOwn(t, v);
    CountOnRow(t.links, t.books, t.viewers[v]);
    CountTouches(t, v, now);
  }

  lemma TouchedExact(t: Table, a: Action, now: int)
    requires Exact(t) && !a.Count?
    ensures Exact(Touch(t, a, now))
  {
    TouchedBooks(t, a, now);
    forall i | i in Touch(t, a, now).links ensures i in t.links && Touch(t, a, now).links[i].views == t.links[i].views {
      TouchedLink(t, a, now, i);
    }
  }

  lemma AddedExact(t: Table, id: nat, row: Link)
    requires Exact(t) && row.views == 0
    ensures Exact(AddRow(t, id, row))
  {
  }

  /** Without a stray viewer a counted view is counted on the row it was looked up on. */
  lemma ExactStep(s: State, a: Action)
    requires Keyed(s) && Exact(s.t) && NoStray(s.t)
    ensures Exact(Apply(s, a).t)
  {
    TableAfter(s, a);
    if Inserts(s, a) {
      AddedExact(s.t, NewToken(s, a), TheRow(s, a));
    } else if a.Count? && a.v in s.t.viewers {
      ExactCount(s.t, a.v, s.clock);
    } else if !a.Count? {
      TouchedExact(s.t, a, s.clock);
    }
  }

  lemma {:induction false} ExactRun(s: State, acts: seq<Action>)
    requires Keyed(s) && Exact(s.t) && NoStray(s.t) && ClashFree(s, acts)
    ensures var end := Run(s, acts); Keyed(end) && Exact(end.t) && NoStray(end.t)
  {
    if acts != [] {
      ExactRun(s, acts[..|acts| - 1]);
      var before, a := Run(s, acts[..|acts| - 1]), acts[|acts| - 1];
      KeyedStep(before, a);
      NoStrayStep(before, a);
      ExactStep(before, a);
    }
  }

  lemma {:induction false} KeyedRun(s: State, acts: seq<Action>)
    requires Keyed(s)
    ensures Keyed(Run(s, acts)) && Run(s, acts).t.reuses == s.t.reuses
  {
    if acts != [] {
      KeyedRun(s, acts[..|acts| - 1]);
      KeyedStep(Run(s, acts[..|acts| - 1]), acts[|acts| - 1]);
    }
  }

  ghost predicate ExactAfter(s: State, acts: seq<Action>) {
    Exact(Run(s, acts).t)
  }

  /** A run in which no new row takes an id that a viewer in flight holds keeps the counters exact and the caps. */
  lemma GrantedViewsAreBounded(reuses: bool, acts: seq<Action>)
    requires ClashFree(Init(reuses), acts)
    ensures ExactAfter(Init(reuses), acts)
    ensures var t := Run(Init(reuses), acts).t;
            && (forall i :: i in t.links ==> i in t.books && t.links[i].views == t.books[i].granted)
            && (forall i :: i in t.books && t.books[i].cap > 0 ==> t.books[i].granted <= t.books[i].cap)
  {
    ExactRun(Init(reuses), acts);
  }

  /** Ids that are never reused never clash. */
  lemma {:induction false} SequenceNeverClashes(acts: seq<Action>)
    ensures ClashFree(Init(false), acts)
  {
    if acts != [] {
      SequenceNeverClashes(acts[..|acts| - 1]);
      KeyedRun(Init(false), acts[..|acts| - 1]);
    }
  }

  lemma StrayMiscounts(s: State, v: nat, id: nat)
    requires Exact(s.t) && v in s.t.viewers && Stray(s.t.links, s.t.viewers[v], id)
    ensures ClashFree(s, [Count(v)]) && !ExactAfter(s, [Count(v)])
  {
    var rest, s' := [Count(v)], Apply(s, Count(v));
    assert rest[..0] == [] && ClashFree(s, []) && !Clash(s, Count(v)) && Run(s, rest) == s';
    assert s'.t.links[id].views == s.t.links[id].views + 1 && s'.t.books[id] == s.t.books[id];
  }

  /**
   From any reachable state: the counters stay exact along every run without a further clash if and only if
   they are exact now and no viewer in flight holds an id that another link has taken over and would count it.
   */
  lemma CountersStayExactIff(reuses: bool, acts: seq<Action>)
    ensures var s := Run(Init(reuses), acts);
            (forall rest :: ClashFree(s, rest) ==> ExactAfter(s, rest)) <==>
            Exact(s.t) && NoStray(s.t)
  {
    var s := Run(Init(reuses), acts);
    KeyedRun(Init(reuses), acts);
    if Exact(s.t) && NoStray(s.t) {
      forall rest | ClashFree(s, rest) ensures ExactAfter(s, rest) {
        ExactRun(s, rest);
      }
    } else if !Exact(s.t) {
      assert ClashFree(s, []) && !ExactAfter(s, []);
    } else {
      var v, id :| v in s.t.viewers && id in s.t.links && Stray(s.t.links, s.t.viewers[v], id);
      StrayMiscounts(s, v, id);
    }
  }

  lemma RunMore(s: State, acts: seq<Action>, a: Action)
    ensures Run(s, acts + [a]) == Apply(Run(s, acts), a)
  {
    assert (acts + [a])[..|acts|] == acts;
  }

  /** One storage link, made with a cap of one view, among nothing else. */
  function Alone(id: nat, views: nat, viewers: map<nat, Viewer>, books: map<nat, Book>): State {
    State(Table(map[id := Link(1, 0, false, DEFAULT_TTL, 1, views, false)], true, 1, viewers, books, map[]),
          map[], id + 1, 0, Nobody)
  }

  lemma FirstLink(acts: seq<Action>)
    requires |acts| == 3 && acts[0] == ShareStorage(0, 0, 1, 1) && acts[1] == Lookup(0, 0) && acts[2] == Lookup(1, 0)
    ensures Run(Init(true), acts) == Alone(0, 0, map[0 := Viewer(0, 1, 1), 1 := Viewer(0, 1, 1)], map[0 := Book(1, 0)])
  {
    assert acts[..3] == acts && acts[..2][..1] == acts[..1] && acts[..1][..0] == [];
    assert Run(Init(true), acts[..0]) == Init(true);
    assert Run(Init(true), acts[..1]) == Alone(0, 0, map[], map[0 := Book(1, 0)]);
    assert Run(Init(true), acts[..2]) == Alone(0, 0, map[0 := Viewer(0, 1, 1)], map[0 := Book(1, 0)]);
  }

  lemma FirstView(s: State)
    requires s == Alone(0, 0, map[0 := Viewer(0, 1, 1), 1 := Viewer(0, 1, 1)], map[0 := Book(1, 0)])
    ensures Apply(s, Count(0)) == Alone(0, 1, map[1 := Viewer(0, 1, 1)], map[0 := Book(1, 1)])
  {
    assert Counts(s.t.links[0], Viewer(0, 1, 1));
  }

  lemma SecondLink(s: State)
    requires s == Alone(0, 1, map[1 := Viewer(0, 1, 1)], map[0 := Book(1, 1)])
    ensures Apply(Apply(s, DeleteRow(0)), ShareStorage(0, 0, 1, 1))
         == Alone(1, 0, map[1 := Viewer(0, 1, 1)], map[0 := Book(1, 1), 1 := Book(1, 0)])
  {
    assert Apply(s, DeleteRow(0)).t.links == map[];
  }

  lemma SecondView(s: State)
    requires s == Alone(1, 0, map[1 := Viewer(0, 1, 1)], map[0 := Book(1, 1), 1 := Book(1, 0)])
    ensures Apply(s, Count(1)) == Alone(1, 1, map[], map[0 := Book(1, 2), 1 := Book(1, 0)])
  {
    assert Counts(s.t.links[1], Viewer(0, 1, 1));
  }

  /**
   With reused ids the cap can be passed. Two viewers look up a link with one view left and one is counted; the
   dead row goes, a new link takes its id, and the second viewer's view is counted there: the first link has
   been served twice, and the new one is used up before anybody saw it.
   */
  lemma ReusedIdServesTwice() returns (acts: seq<Action>)
    ensures var s := Run(Init(true), acts);
            && s.t.books == map[0 := Book(1, 2), 1 := Book(1, 0)]
            && 1 in s.t.links && s.t.links[1].views == 1 && !Active(s.t.links[1], s.clock)
  {
    var first := [ShareStorage(0, 0, 1, 1), Lookup(0, 0), Lookup(1, 0)];
    FirstLink(first);
    FirstView(Run(Init(true), first));
    RunMore(Init(true), first, Count(0));
    SecondLink(Run(Init(true), first + [Count(0)]));
    RunMore(Init(true), first + [Count(0)], DeleteRow(0));
    RunMore(Init(true), first + [Count(0)] + [DeleteRow(0)], ShareStorage(0, 0, 1, 1));
    var second := first + [Count(0)] + [DeleteRow(0)] + [ShareStorage(0, 0, 1, 1)];
    SecondView(Run(Init(true), second));
    RunMore(Init(true), second, Count(1));
    acts := second + [Count(1)];
  }

  /** So the counters and caps hold in every run if and only if the database never reuses a row id. */
  lemma AlwaysExactIff(reuses: bool)
    ensures (forall acts :: ExactAfter(Init(reuses), acts)) <==> !reuses
  {
    if reuses {
      var acts := ReusedIdServesTwice();
      assert !ExactAfter(Init(true), acts);
    } else {
      forall acts ensures ExactAfter(Init(false), acts) {
        SequenceNeverClashes(acts);
        GrantedViewsAreBounded(false, acts);
      }
    }
  }

  // ----- purging by row id -----

  predicate HeldByPurge(t: Table, rowId: nat) {
    exists p :: p in t.purges && rowId in t.purges[p]
  }

  /** The step inserts a row under an id that a purge under way is about to delete. */
  predicate PurgeClash(s: State, a: Action) {
    Inserts(s, a) && HeldByPurge(s.t, a.rowId)
  }

  ghost predicate PurgeClashFree(s: State, acts: seq<Action>) {
    acts == [] || (PurgeClashFree(s, acts[..|acts| - 1]) && !PurgeClash(Run(s, acts[..|acts| - 1]), acts[|acts| - 1]))
  }

  /** Link `id` is refused, if a purge is about to delete it. */
  predicate Purgeable(t: Table, now: int, id: nat)
    requires id in t.links
  {
    HeldByPurge(t, t.links[id].rowId) ==> !Active(t.links[id], now)
  }

  ghost predicate PurgesOnlyDead(s: State) {
    forall id :: id in s.t.links ==> Purgeable(s.t, s.clock, id)
  }

  /** Only a refused link's id is selected. */
  lemma SelectedAreDead(t: Table, now: int, everyone: bool, owner: nat, id: nat)
    requires RowsKeyed(t) && id in t.links && t.links[id].rowId in DeadIds(t.links, now, everyone, owner)
    ensures !Active(t.links[id], now)
  {
  }

  lemma TouchedPurgeable(t: Table, a: Action, now: int, later: int, id: nat)
    requires RowsKeyed(t) && id in Touch(t, a, now).links && now <= later && (id in t.links ==> Purgeable(t, now, id))
    ensures Purgeable(Touch(t, a, now), later, id)
  {
    var t' := Touch(t, a, now);
    TouchedLink(t, a, now, id);
    if HeldByPurge(t', t'.links[id].rowId) {
      var p :| p in t'.purges && t'.links[id].rowId in t'.purges[p];
      TouchedPurge(t, a, now, p);
      if !(p in t.purges && t'.purges[p] == t.purges[p]) {
        SelectedAreDead(t, now, a.everyone, a.owner, id);
      }
    }
  }

  lemma PurgeableStep(s: State, a: Action, id: nat)
    requires Keyed(s) && PurgesOnlyDead(s) && !PurgeClash(s, a) && id in Apply(s, a).t.links
    ensures Purgeable(Apply(s, a).t, Apply(s, a).clock, id)
  {
    TableAfter(s, a);
    ClockAdvances(s, a);
    assert id in s.t.links ==> Purgeable(s.t, s.clock, id);
    if !Inserts(s, a) {
      TouchedPurgeable(s.t, a, s.clock, Apply(s, a).clock, id);
    } else {
      assert Apply(s, a).t.purges == s.t.purges;
    }
  }

  lemma {:induction false} PurgesOnlyDeadRun(s: State, acts: seq<Action>)
    requires Keyed(s) && PurgesOnlyDead(s) && PurgeClashFree(s, acts)
    ensures Keyed(Run(s, acts)) && PurgesOnlyDead(Run(s, acts))
  {
    if acts != [] {
      var before, a := Run(s, acts[..|acts| - 1]), acts[|acts| - 1];
      PurgesOnlyDeadRun(s, acts[..|acts| - 1]);
      KeyedStep(before, a);
      forall id | id in Apply(before, a).t.links ensures Purgeable(Apply(before, a).t, Apply(before, a).clock, id) {
        PurgeableStep(before, a, id);
      }
    }
  }

  /** What the DELETE of purge `p` would take now is refused. */
  ghost predicate SparesTheLive(s: State, p: nat) {
    forall id :: id in s.t.links && id !in Apply(s, PurgeDelete(p)).t.links ==> !Active(s.t.links[id], s.clock)
  }

  ghost predicate SparesAfter(s: State, rest: seq<Action>, p: nat) {
    SparesTheLive(Run(s, rest), p)
  }

  lemma DeadAreSpared(s: State)
    ensures PurgesOnlyDead(s) <==> forall p :: SparesTheLive(s, p)
  {
    if PurgesOnlyDead(s) {
      forall p ensures SparesTheLive(s, p) {
        forall id | id in s.t.links && id !in Apply(s, PurgeDelete(p)).t.links ensures !Active(s.t.links[id], s.clock) {
          assert Purgeable(s.t, s.clock, id) && HeldByPurge(s.t, s.t.links[id].rowId);
        }
      }
    } else {
      var id :| id in s.t.links && !Purgeable(s.t, s.clock, id);
      var p :| p in s.t.purges && s.t.links[id].rowId in s.t.purges[p];
      assert id !in Apply(s, PurgeDelete(p)).t.links;
      assert !SparesTheLive(s, p);
    }
  }

  /**
   From any reachable state: purges delete none but refused links along every run in which no new link takes an id
   that a purge under way is about to delete, if and only if no live link has such an id now.
   */
  lemma PurgesSpareTheLiveIff(reuses: bool, acts: seq<Action>)
    ensures var s := Run(Init(reuses), acts);
            (forall rest, p :: PurgeClashFree(s, rest) ==> SparesAfter(s, rest, p)) <==> PurgesOnlyDead(s)
  {
    var s := Run(Init(reuses), acts);
    KeyedRun(Init(reuses), acts);
    DeadAreSpared(s);
    if PurgesOnlyDead(s) {
      forall rest, p | PurgeClashFree(s, rest) ensures SparesAfter(s, rest, p) {
        PurgesOnlyDeadRun(s, rest);
        DeadAreSpared(Run(s, rest));
      }
    } else {
      var p :| !SparesTheLive(s, p);
      assert PurgeClashFree(s, []) && !SparesAfter(s, [], p);
    }
  }

  lemma {:induction false} SequencePurgesNeverClash(acts: seq<Action>)
    ensures PurgeClashFree(Init(false), acts)
  {
    if acts != [] {
      var before := acts[..|acts| - 1];
      SequencePurgesNeverClash(before);
      KeyedRun(Init(false), before);
    }
  }

  lemma DeadIsSelected(s: State, made: Action)
    requires s == Alone(0, 0, map[], map[0 := Book(1, 0)]) && made == ShareStorage(0, 0, 1, 1)
    ensures !SparesTheLive(Apply(Apply(Apply(Apply(s, Revoke(0)), PurgeSelect(0, true, 0)), DeleteRow(0)), made), 0)
  {
    var s2 := Apply(s, Revoke(0));
    assert s2.t.links[0].revoked && 1 == s2.t.links[0].rowId && 1 in DeadIds(s2.t.links, 0, true, 0);
    var s4 := Apply(Apply(s2, PurgeSelect(0, true, 0)), DeleteRow(0));
    assert s4.t.links == map[] && 1 in s4.t.purges[0];
    var s5 := Apply(s4, made);
    assert 1 in s5.t.links && s5.t.links[1].rowId == 1 && Active(s5.t.links[1], s5.clock);
    assert 1 !in Apply(s5, PurgeDelete(0)).t.links;
  }

  /** A dead link is selected, goes another way, and a live one gets its id before the DELETE. */
  lemma ReusedIdIsPurged() returns (acts: seq<Action>)
    ensures !SparesAfter(Init(true), acts, 0)
  {
    var made := ShareStorage(0, 0, 1, 1);
    var first := [made] + [Revoke(0)];
    RunMore(Init(true), [], made);
    assert [] + [made] == [made];
    RunMore(Init(true), [made], Revoke(0));
    var s1 := Alone(0, 0, map[], map[0 := Book(1, 0)]);
    assert Run(Init(true), [made]) == s1;
    var second := first + [PurgeSelect(0, true, 0)];
    RunMore(Init(true), first, PurgeSelect(0, true, 0));
    RunMore(Init(true), second, DeleteRow(0));
    RunMore(Init(true), second + [DeleteRow(0)], made);
    acts := second + [DeleteRow(0)] + [made];
    DeadIsSelected(s1, made);
  }

  /** So a purge is always harmless if and only if the database never reuses a row id. */
  lemma PurgesAlwaysSpareTheLiveIff(reuses: bool)
    ensures (forall acts, p :: SparesAfter(Init(reuses), acts, p)) <==> !reuses
  {
    if reuses {
      var acts := ReusedIdIsPurged();
    } else {
      forall acts, p ensures SparesAfter(Init(false), acts, p) {
        SequencePurgesNeverClash(acts);
        PurgesOnlyDeadRun(Init(false), acts);
        DeadAreSpared(Run(Init(false), acts));
      }
    }
  }

  // ----- who is let in, and for how long -----

  /** A link is served exactly while it is there, not revoked, not past its expiry and, if capped, below its cap. */
  lemma LookupAdmitsIff(s: State, v: nat, id: nat)
    requires v !in s.t.viewers
    ensures v in Apply(s, Lookup(v, id)).t.viewers <==>
            && id in s.t.links && !s.t.links[id].revoked && s.clock <= s.t.links[id].expires
            && (s.t.links[id].maxViews == 0 || s.t.links[id].views < s.t.links[id].maxViews)
    ensures Apply(s, Lookup(v, id)).t.links == s.t.links
  {
  }

  /** What one step does to a link that is there. */
  lemma LinkStepIs(s: State, a: Action, id: nat)
    requires Fresh(s) && id in s.t.links
    ensures id in Apply(s, a).t.links <==>
            !(|| a == DeleteRow(id)
              || (a.DeleteOwner? && a.owner == s.t.links[id].owner)
              || (a.PurgeDelete? && a.p in s.t.purges && s.t.links[id].rowId in s.t.purges[a.p]))
    ensures id in Apply(s, a).t.links ==>
              var counted := a.Count? && a.v in s.t.viewers && Counts(s.t.links[id], s.t.viewers[a.v]);
              Apply(s, a).t.links[id] ==
              s.t.links[id].(revoked := s.t.links[id].revoked || a == Revoke(id),
                             views := s.t.links[id].views + if counted then 1 else 0)
  {
    TableAfter(s, a);
  }

  predicate RevokedIn(acts: seq<Action>, id: nat) {
    Revoke(id) in acts
  }

  lemma {:induction false} FreshRun(s: State, acts: seq<Action>)
    requires Fresh(s)
    ensures Fresh(Run(s, acts)) && s.next <= Run(s, acts).next
    ensures s.t.books.Keys <= Run(s, acts).t.books.Keys
  {
    if acts != [] {
      FreshRun(s, acts[..|acts| - 1]);
      FreshStep(Run(s, acts[..|acts| - 1]), acts[|acts| - 1]);
      TableAfter(Run(s, acts[..|acts| - 1]), acts[|acts| - 1]);
      TouchedKeys(Run(s, acts[..|acts| - 1]).t, acts[|acts| - 1], Run(s, acts[..|acts| - 1]).clock);
    }
  }

  /** A token that is there after a step and is not new was there before. */
  lemma StaysInserted(s: State, before: seq<Action>, a: Action, id: nat)
    requires Fresh(s) && id in s.t.links && id in Apply(Run(s, before), a).t.links
    ensures id in Run(s, before).t.links
  {
    FreshRun(s, before);
    LinkAfter(Run(s, before), a, id);
  }

  /** After a run a link that is still there is as it was made, but for its counter and the revocations since. */
  lemma {:induction false} LinkOverRun(s: State, acts: seq<Action>, id: nat)
    requires Fresh(s) && id in s.t.links && id in Run(s, acts).t.links
    ensures var was, now := s.t.links[id], Run(s, acts).t.links[id];
            && now.owner == was.owner && now.pdf == was.pdf
            && now.expires == was.expires && now.maxViews == was.maxViews
            && now.rowId == was.rowId && (now.revoked <==> was.revoked || RevokedIn(acts, id))
    ensures Fresh(Run(s, acts)) && s.next <= Run(s, acts).next
  {
    if acts != [] {
      var before, a := acts[..|acts| - 1], acts[|acts| - 1];
      FreshRun(s, before);
      StaysInserted(s, before, a, id);
      LinkOverRun(s, before, id);
      FreshStep(Run(s, before), a);
      LinkStepIs(Run(s, before), a, id);
      assert acts == before + [a];
    }
  }

  /** The step makes link `id` for `owner`, who asked for these limits. */
  predicate Makes(s: State, a: Action, id: nat, owner: nat, ttl: int, maxViews: int) {
    && Inserts(s, a)
    && match a
       case ShareStorage(o, t, m, _) => id == s.next && owner == o && ttl == t && maxViews == m
       case _ =>
         && id == s.creator.id && owner == s.creator.owner && ttl == s.creator.ttl && maxViews == s.creator.maxViews
  }

  lemma MadeLink(s: State, a: Action, id: nat, owner: nat, ttl: int, maxViews: int)
    requires Fresh(s) && Makes(s, a, id, owner, ttl, maxViews)
    ensures Fresh(Apply(s, a)) && id in Apply(s, a).t.links
    ensures var row := Apply(s, a).t.links[id];
            && row.owner == owner && row.expires == s.clock + ClampTtl(ttl)
            && row.maxViews == ClampViews(maxViews) && row.views == 0 && !row.revoked
  {
    FreshStep(s, a);
    TableAfter(s, a);
  }

  /** Every link there is at the end of a run was made by one of its steps. */
  lemma {:induction false} EveryLinkWasMade(reuses: bool, acts: seq<Action>, id: nat)
    returns (i: nat, owner: nat, ttl: int, maxViews: int)
    requires id in Run(Init(reuses), acts).t.links
    ensures i < |acts| && Makes(Run(Init(reuses), acts[..i]), acts[i], id, owner, ttl, maxViews)
  {
    var before := acts[..|acts| - 1];
    if id in Run(Init(reuses), before).t.links {
      i, owner, ttl, maxViews := EveryLinkWasMade(reuses, before, id);
      assert before[..i] == acts[..i];
    } else {
      var s, a := Run(Init(reuses), before), acts[|acts| - 1];
      TableAfter(s, a);
      i := |acts| - 1;
      if a.ShareStorage? {
        owner, ttl, maxViews := a.owner, a.ttl, a.maxViews;
      } else {
        owner, ttl, maxViews := s.creator.owner, s.creator.ttl, s.creator.maxViews;
      }
    }
  }

  /**
   A link over its whole life, in any run: from its making to the end of the time asked for, a week if none, at least
   a minute and at most ninety days, and no longer, it is served whenever it is still there, nobody has revoked it, and
   its views are below the number asked for, if any, and a thousand.
   */
  lemma ServedIff(reuses: bool, acts: seq<Action>, a: Action, rest: seq<Action>, v: nat, id: nat, owner: nat,
                  ttl: int, maxViews: int)
    requires Makes(Run(Init(reuses), acts), a, id, owner, ttl, maxViews)
    requires v !in Run(Apply(Run(Init(reuses), acts), a), rest).t.viewers
    ensures var s := Run(Init(reuses), acts);
            var end := Run(Apply(s, a), rest);
            var seconds :=
              if ttl <= 0 then 604_800 else if ttl < 60 then 60 else if ttl < 7_776_000 then ttl else 7_776_000;
            v in Apply(end, Lookup(v, id)).t.viewers <==>
            && id in end.t.links && !RevokedIn(rest, id) && end.clock <= s.clock + seconds
            && (maxViews <= 0 || (end.t.links[id].views < maxViews && end.t.links[id].views < 1000))
  {
    var s := Run(Init(reuses), acts);
    var made := Apply(s, a);
    KeyedRun(Init(reuses), acts);
    MadeLink(s, a, id, owner, ttl, maxViews);
    LookupAdmitsIff(Run(made, rest), v, id);
    if id in Run(made, rest).t.links {
      LinkOverRun(made, rest, id);
    }
  }

  /** Purge `p` is still to come. */
  ghost predicate NotYetPurged(acts: seq<Action>, p: nat) {
    forall i :: 0 <= i < |acts| ==> acts[i] != PurgeDelete(p)
  }

  lemma {:induction false} PurgeIsKept(s: State, acts: seq<Action>, p: nat)
    requires p in s.t.purges && NotYetPurged(acts, p)
    ensures p in Run(s, acts).t.purges && Run(s, acts).t.purges[p] == s.t.purges[p]
  {
    if acts != [] {
      PurgeIsKept(s, acts[..|acts| - 1], p);
      TableAfter(Run(s, acts[..|acts| - 1]), acts[|acts| - 1]);
    }
  }

  /**
   A purge, in its two steps with anything between, leaves none of the links that were past their expiry, revoked or
   used up when it looked, of its owner's or of everyone's.
   */
  lemma DeadArePurged(s: State, p: nat, everyone: bool, owner: nat, rest: seq<Action>, id: nat)
    requires Fresh(s) && p !in s.t.purges && id in s.t.links
    requires forall i :: 0 <= i < |rest| ==> rest[i] != PurgeDelete(p)
    requires everyone || s.t.links[id].owner == owner
    requires var l := s.t.links[id]; l.expires < s.clock || l.revoked || (l.maxViews > 0 && l.views >= l.maxViews)
    ensures id !in Apply(Run(Apply(s, PurgeSelect(p, everyone, owner)), rest), PurgeDelete(p)).t.links
  {
    var chosen := Apply(s, PurgeSelect(p, everyone, owner));
    assert s.t.links[id].rowId in DeadIds(s.t.links, s.clock, everyone, owner);
    FreshStep(s, PurgeSelect(p, everyone, owner));
    PurgeIsKept(chosen, rest, p);
    var end := Run(chosen, rest);
    if id in end.t.links {
      LinkOverRun(chosen, rest, id);
    }
  }

  /** A purge looks at the rows of its owner, or at all, and leaves the table alone while it does. */
  lemma SelectionIs(s: State, p: nat, everyone: bool, owner: nat)
    requires p !in s.t.purges
    ensures var s' := Apply(s, PurgeSelect(p, everyone, owner));
            && s'.t.links == s.t.links && p in s'.t.purges
            && forall r :: r in s'.t.purges[p] ==>
                 exists id :: id in s.t.links && s.t.links[id].rowId == r && (everyone || s.t.links[id].owner == owner)
  {
  }

  // ----- the rest of a step, part by part -----

  /** A viewer comes by a lookup that finds a served link, and goes by its count or by giving up. */
  lemma ViewerAfter(s: State, a: Action, v: nat)
    ensures v in Apply(s, a).t.viewers <==>
            || (v in s.t.viewers && a != Count(v) && a != GiveUp(v))
            || (a.Lookup? && a.v == v && a.id in s.t.links && Active(s.t.links[a.id], s.clock))
    ensures v in Apply(s, a).t.viewers ==>
              Apply(s, a).t.viewers[v] ==
              if v in s.t.viewers then s.t.viewers[v] else Viewer(a.id, s.t.links[a.id].rowId, s.t.links[a.id].maxViews)
  {
    TableAfter(s, a);
  }

  /** A purge is under way from its look to its DELETE. */
  lemma PurgeAfter(s: State, a: Action, p: nat)
    ensures p in Apply(s, a).t.purges <==> (p in s.t.purges && a != PurgeDelete(p)) || (a.PurgeSelect? && a.p == p)
    ensures p in s.t.purges && p in Apply(s, a).t.purges ==> Apply(s, a).t.purges[p] == s.t.purges[p]
  {
    TableAfter(s, a);
  }

  /** A file comes with the creation that writes it and goes when it is dropped; the clock moves forward alone. */
  lemma FileAfter(s: State, a: Action, id: nat)
    ensures id in Apply(s, a).files <==>
            (id in s.files && a != DropFile(id)) || (a.WriteFile? && s.creator.Writing? && id == s.next)
    ensures id in Apply(s, a).files ==>
              Apply(s, a).files[id] ==
              if a.WriteFile? && s.creator.Writing? && id == s.next then s.creator.size else s.files[id]
    ensures Apply(s, a).clock == if a.Tick? && a.now > s.clock then a.now else s.clock
  {
  }

  /** One creation at a time: a second one waits, and the lock is free again when the first gives up. */
  lemma LockIsExclusive(s: State, owner: nat, size: nat, ttl: int, maxViews: int)
    ensures !s.creator.Nobody? ==> Apply(s, Begin(owner, size, ttl, maxViews)) == s
    ensures Apply(s, Abort) == s.(creator := Nobody)
  {
  }

  /** With reuse a new id is the largest present plus one, or 1 in an empty table; a sequence never goes back. */
  lemma NextRowId(t: Table, rowId: nat, id: nat)
    ensures !t.reuses ==> (MayTake(t, rowId) <==> rowId > t.lastId)
    ensures t.reuses && t.links == map[] ==> (MayTake(t, rowId) <==> rowId == 1)
    ensures t.reuses && id in t.links && (forall j :: j in t.links ==> 1 <= t.links[j].rowId <= t.links[id].rowId) ==>
              (MayTake(t, rowId) <==> rowId == t.links[id].rowId + 1)
  {
  }

  // ----- one creation, undisturbed -----

  function Reads(ids: seq<nat>): seq<Action> {
    if ids == [] then [] else Reads(ids[..|ids| - 1]) + [ReadSize(ids[|ids| - 1])]
  }

  lemma {:induction false} RunAppends(s: State, xs: seq<Action>, ys: seq<Action>)
    ensures Run(s, xs + ys) == Run(Run(s, xs), ys)
  {
    if ys == [] {
      assert xs + ys == xs;
    } else {
      RunAppends(s, xs, ys[..|ys| - 1]);
      assert (xs + ys)[..|xs + ys| - 1] == xs + ys[..|ys| - 1];
    }
  }

  function Members(ids: seq<nat>): set<nat> {
    set id | id in ids
  }

  lemma MembersGrow(ids: seq<nat>)
    requires ids != []
    ensures Members(ids) == Members(ids[..|ids| - 1]) + {ids[|ids| - 1]}
  {
    assert ids == ids[..|ids| - 1] + [ids[|ids| - 1]];
  }

  /** The measuring state with `read` of the sizes read. */
  ghost function HavingRead(s: State, read: set<nat>): State
    requires s.creator.Measuring?
  {
    s.(creator := s.creator.(left := s.creator.left - read, total := s.creator.total + Sum(read, s.files)))
  }

  lemma ReadOne(s: State, read: set<nat>, id: nat)
    requires s.creator.Measuring? && id in s.creator.left && id !in read
    ensures Apply(HavingRead(s, read), ReadSize(id)) == HavingRead(s, read + {id})
  {
    SumWithout(read + {id}, s.files, id);
    assert read + {id} - {id} == read;
    assert s.creator.left - read - {id} == s.creator.left - (read + {id});
  }

  /** The measuring loop, read by read. */
  lemma {:induction false} ReadsAddUp(s: State, ids: seq<nat>)
    requires s.creator.Measuring? && Members(ids) <= s.creator.left
    requires forall i, j :: 0 <= i < j < |ids| ==> ids[i] != ids[j]
    ensures Run(s, Reads(ids)) == HavingRead(s, Members(ids))
  {
    if ids == [] {
      assert s.creator.left - {} == s.creator.left;
    } else {
      var before, id := ids[..|ids| - 1], ids[|ids| - 1];
      MembersGrow(ids);
      ReadsAddUp(s, before);
      RunMore(s, Reads(before), ReadSize(id));
      assert id !in Members(before);
      ReadOne(s, Members(before), id);
    }
  }

  function CreateSteps(owner: nat, size: nat, ttl: int, maxViews: int, ids: seq<nat>, rowId: nat): seq<Action> {
    [Begin(owner, size, ttl, maxViews), SelectRows] + Reads(ids) + [CheckTotal, WriteFile, InsertRow(rowId)]
  }

  lemma RunTwo(s: State, acts: seq<Action>)
    requires |acts| == 2
    ensures Run(s, acts) == Apply(Apply(s, acts[0]), acts[1])
  {
    assert acts[..1][..0] == [];
    assert Run(s, acts[..1]) == Apply(s, acts[0]);
  }

  lemma RunThree(s: State, acts: seq<Action>)
    requires |acts| == 3
    ensures Run(s, acts) == Apply(Apply(Apply(s, acts[0]), acts[1]), acts[2])
  {
    RunTwo(s, acts[..2]);
    assert acts[..2][0] == acts[0] && acts[..2][1] == acts[1];
  }

  lemma {:induction false} IdleReads(s: State, ids: seq<nat>)
    requires s.creator.Nobody?
    ensures Run(s, Reads(ids)) == s
  {
    if ids != [] {
      IdleReads(s, ids[..|ids| - 1]);
      RunMore(s, Reads(ids[..|ids| - 1]), ReadSize(ids[|ids| - 1]));
    }
  }

  /** The last three steps, once every size has been read. */
  lemma Concluded(s: State, c: Creator, rowId: nat)
    requires s.creator == c && c.Measuring? && c.left == {} && MayTake(s.t, rowId)
    ensures Apply(Apply(Apply(s, CheckTotal), WriteFile), InsertRow(rowId)) ==
            if c.total + c.size > MAX_PDF_SHARE_BYTES_PER_USER then s.(creator := Nobody)
            else s.(t := AddRow(s.t, s.next, NewRow(rowId, c.owner, true, s.clock, c.ttl, c.maxViews)),
                    files := s.files[s.next := c.size], next := s.next + 1, creator := Nobody)
  {
  }

  lemma Begun(s: State, owner: nat, size: nat, ttl: int, maxViews: int)
    requires s.creator.Nobody?
    ensures Run(s, [Begin(owner, size, ttl, maxViews), SelectRows]) ==
            if size > MAX_PDF_BYTES then s
            else s.(creator := Measuring(owner, size, ttl, maxViews, PdfRows(s, owner), 0))
  {
    RunTwo(s, [Begin(owner, size, ttl, maxViews), SelectRows]);
  }

  lemma Measured(s: State, owner: nat, size: nat, ttl: int, maxViews: int, ids: seq<nat>)
    requires forall i, j :: 0 <= i < j < |ids| ==> ids[i] != ids[j]
    requires PdfRows(s, owner) == Members(ids)
    ensures Run(s.(creator := Measuring(owner, size, ttl, maxViews, PdfRows(s, owner), 0)), Reads(ids)) ==
            s.(creator := Measuring(owner, size, ttl, maxViews, {}, ShareBytes(s, owner)))
  {
    ReadsAddUp(s.(creator := Measuring(owner, size, ttl, maxViews, PdfRows(s, owner), 0)), ids);
    assert PdfRows(s, owner) - PdfRows(s, owner) == {};
  }

  lemma InParts(s: State, owner: nat, size: nat, ttl: int, maxViews: int, ids: seq<nat>, rowId: nat)
    ensures var s1 := Run(s, [Begin(owner, size, ttl, maxViews), SelectRows]);
            var s2 := Run(s1, Reads(ids));
            Run(s, CreateSteps(owner, size, ttl, maxViews, ids, rowId)) ==
            Apply(Apply(Apply(s2, CheckTotal), WriteFile), InsertRow(rowId))
  {
    var first, last := [Begin(owner, size, ttl, maxViews), SelectRows], [CheckTotal, WriteFile, InsertRow(rowId)];
    RunAppends(s, first + Reads(ids), last);
    RunAppends(s, first, Reads(ids));
    RunThree(Run(s, first + Reads(ids)), last);
  }

  /**
   A creation nobody disturbs, after its purge: too large a PDF and one past the user's ceiling change nothing;
   any other adds one row, with the limits asked for, and its file.
   */
  lemma CreationInIsolation(s: State, owner: nat, size: nat, ttl: int, maxViews: int, ids: seq<nat>, rowId: nat)
    requires s.creator.Nobody? && MayTake(s.t, rowId)
    requires forall i, j :: 0 <= i < j < |ids| ==> ids[i] != ids[j]
    requires forall id :: id in ids <==> id in s.t.links && s.t.links[id].pdf && s.t.links[id].owner == owner
    ensures Run(s, CreateSteps(owner, size, ttl, maxViews, ids, rowId)) ==
            if size > 10_485_760 || ShareBytes(s, owner) + size > 209_715_200 then s
            else s.(t := AddRow(s.t, s.next, NewRow(rowId, owner, true, s.clock, ttl, maxViews)),
                    files := s.files[s.next := size], next := s.next + 1)
  {
    InParts(s, owner, size, ttl, maxViews, ids, rowId);
    Begun(s, owner, size, ttl, maxViews);
    if size > MAX_PDF_BYTES {
      IdleReads(s, ids);
    } else {
      Measured(s, owner, size, ttl, maxViews, ids);
      var c := Measuring(owner, size, ttl, maxViews, {}, ShareBytes(s, owner));
      Concluded(s.(creator := c), c, rowId);
    }
  }

  // ----- the module's own functions, uninterrupted -----

  datatype Created = QuotaExceeded | TooLarge | Share(id: nat)

  datatype Recorded = Applied | Saturated | RowGone

  /** A file written under a fresh token is nobody's yet. */
  lemma FileAdds(s: State, owner: nat, size: nat)
    requires forall id :: id in s.t.links || id in s.files ==> id < s.next
    ensures ShareBytes(s.(files := s.files[s.next := size]), owner) == ShareBytes(s, owner)
  {
    var t := s.(files := s.files[s.next := size]);
    assert PdfRows(t, owner) == PdfRows(s, owner);
    SumShrinks(PdfRows(t, owner), PdfRows(s, owner), t.files, s.files);
    SumShrinks(PdfRows(s, owner), PdfRows(t, owner), s.files, t.files);
  }

  /** `ShareLink` rows and the stored PDFs. */
  class ShareStore {
    var links: map<nat, Link>
    var files: map<nat, nat>
    var next: nat

    constructor ()
      ensures links == map[] && files == map[]
    {
      links, files, next := map[], map[], 0;
    }

    /** The state with these tables, nobody creating and `viewers` in flight. */
    function Value(now: int, viewers: map<nat, Viewer>): State
      reads this
    {
      State(Table(links, true, 0, viewers, map[], map[]), files, next, now, Nobody)
    }

    /**
     `record_view` for the row a viewer looked up, which may be gone by now: one UPDATE by row id, then, if it counts
     as applied, the row is read again.
     */
    method RecordView(w: Viewer) returns (r: Recorded)
      modifies this`links
      ensures links == Apply(old(Value(0, map[0 := w])), Count(0)).t.links
      ensures r.Applied? <==> exists id :: id in old(links) && Counts(old(links)[id], w)
      ensures r.RowGone? <==> w.maxViews == 0 && forall id :: id in old(links) ==> old(links)[id].rowId != w.rowId
    {
      var hit := set id | id in links && Counts(links[id], w);
      links := Counted(links, w);
      if w.maxViews > 0 {
        if hit == {} {
          assert forall id :: id in old(links) && Counts(old(links)[id], w) ==> id in hit;
          return Saturated;
        }
        var id :| id in hit;
        return Applied;
      }
      if forall id :: id in links ==> links[id].rowId != w.rowId {
        assert forall id :: id in old(links) ==> old(links)[id].rowId == links[id].rowId;
        return RowGone;
      }
      var id :| id in links && links[id].rowId == w.rowId;
      assert Counts(old(links)[id], w);
      r := Applied;
    }

    method RevokeLink(id: nat)
      requires id in links
      modifies this`links
      ensures Value(0, map[]) == Apply(old(Value(0, map[])), Revoke(id))
    {
      links := links[id := links[id].(revoked := true)];
    }

    /**
     `purge_expired_shares` for one user: the files of the dead PDF links first, then their rows. A file that is
     `stuck` stays behind without a row.
     */
    method PurgeExpired(owner: nat, now: int, stuck: set<nat>) returns (count: nat)
      modifies this`links, this`files
      ensures forall id :: id in links <==>
                           id in old(links) && (old(links)[id].owner == owner ==> Active(old(links)[id], now))
      ensures forall id :: id in links ==> links[id] == old(links)[id]
      ensures forall id :: id in links && links[id].pdf ==> SizeOf(files, id) == SizeOf(old(files), id)
      ensures forall id :: id in old(links) && old(links)[id].pdf && id !in links && id !in stuck ==> id !in files
      ensures files.Keys <= old(files).Keys
      ensures count == |set id | id in old(links) && id !in links|
    {
      var dead := set id | id in links && links[id].owner == owner && Dead(links[id], now);
      count := |dead|;
      DeleteShareFiles((set id | id in dead && links[id].pdf), stuck);
      links := links - dead;
      assert dead == set id | id in old(links) && id !in links;
    }

    /** `delete_share_files`: a name it does not trust, or cannot delete, is passed over. */
    method DeleteShareFiles(names: set<nat>, stuck: set<nat>)
      modifies this`files
      ensures files == old(files) - (names - stuck)
    {
      var left := names;
      while left != {}
        invariant left <= names && files == old(files) - (names - left - stuck)
        decreases |left|
      {
        var name :| name in left;
        if name !in stuck {
          files := files - {name};
          assert names - (left - {name}) - stuck == (names - left - stuck) + {name};
        } else {
          assert names - (left - {name}) - stuck == names - left - stuck;
        }
        left := left - {name};
      }
      assert names - {} - stuck == names - stuck;
    }

    /** `_pdf_share_bytes`. */
    method PdfShareBytes(owner: nat) returns (total: nat)
      ensures total == ShareBytes(Value(0, map[]), owner)
    {
      var rows := PdfRows(Value(0, map[]), owner);
      total := 0;
      while rows != {}
        invariant total + Sum(rows, files) == ShareBytes(Value(0, map[]), owner)
        decreases |rows|
      {
        var id :| id in rows;
        SumWithout(rows, files, id);
        total := total + SizeOf(files, id);
        rows := rows - {id};
      }
    }

    /** `create_pdf_share` once the PDF is rendered. */
    method CreatePdfShare(owner: nat, size: nat, ttl: int, maxViews: int, now: int, rowId: nat, stuck: set<nat>)
      returns (r: Created)
      requires forall id :: id in links || id in files ==> id < next
      modifies this
      ensures r.TooLarge? <==> size > MAX_PDF_BYTES
      ensures r.TooLarge? ==> Value(0, map[]) == old(Value(0, map[]))
      ensures r.Share? ==> r.id == old(next) && SizeOf(files, r.id) == size
      ensures r.Share? ==> r.id in links && links[r.id] == NewRow(rowId, owner, true, now, ttl, maxViews)
      ensures r.Share? ==>
              Active(links[r.id], now) && ShareBytes(Value(0, map[]), owner) <= MAX_PDF_SHARE_BYTES_PER_USER
      ensures r.QuotaExceeded? ==> ShareBytes(Value(0, map[]), owner) + size > MAX_PDF_SHARE_BYTES_PER_USER
      ensures !r.TooLarge? ==>
                forall id :: id in links && !(r.Share? && id == r.id) <==>
                             id in old(links) && (old(links)[id].owner == owner ==> Active(old(links)[id], now))
      ensures forall id :: id in old(links) && id in links ==> links[id] == old(links)[id]
    {
      if size > MAX_PDF_BYTES {
        return TooLarge;
      }
      var purged := PurgeExpired(owner, now, stuck);
      var used := PdfShareBytes(owner);
      if used + size > MAX_PDF_SHARE_BYTES_PER_USER {
        return QuotaExceeded;
      }
      ghost var before := Value(now, map[]).(files := files[next := size], next := next + 1,
                                      creator := Inserting(owner, size, ttl, maxViews, next));
      FileAdds(Value(now, map[]), owner, size);
      InsertFits(before, rowId);
      files := files[next := size];
      links := links[next := NewRow(rowId, owner, true, now, ttl, maxViews)];
      next := next + 1;
      assert links == Inserted(before, rowId).t.links && files == before.files;
      assert PdfRows(Value(now, map[]), owner) == PdfRows(Inserted(before, rowId), owner);
      assert PdfRows(Value(0, map[]), owner) == PdfRows(Value(now, map[]), owner);
      r := Share(next - 1);
    }
  }
}
