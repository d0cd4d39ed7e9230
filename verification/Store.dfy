/** Job rows and "newest first, cut at a limit" listings of them. */
module Listing {
  type JobId = string

  datatype JobState = Running | Done | Killed | Failed

  datatype Row = Row(command: string, state: JobState, exitCode: int, startedAt: int, finishedAt: int)

  datatype JobRow = JobRow(id: JobId, row: Row)

  predicate NewestFirst(xs: seq<JobRow>) {
    forall i, j :: 0 <= i < j < |xs| ==> xs[i].row.startedAt >= xs[j].row.startedAt
  }

  /** xs lists every job of m exactly once. */
  ghost predicate Lists(xs: seq<JobRow>, m: map<JobId, Row>) {
    && (forall i, j :: 0 <= i < j < |xs| ==> xs[i].id != xs[j].id)
    && (forall x :: x in xs ==> x.id in m && m[x.id] == x.row)
    && (forall id :: id in m ==> JobRow(id, m[id]) in xs)
  }

  /** The newest `limit` jobs of m, newest first; ties in any order. */
  ghost predicate TopK(out: seq<JobRow>, m: map<JobId, Row>, limit: nat) {
    && NewestFirst(out)
    && |out| == (if |m| <= limit then |m| else limit)
    && (forall i, j :: 0 <= i < j < |out| ==> out[i].id != out[j].id)
    && (forall x :: x in out ==> x.id in m && m[x.id] == x.row)
    && (forall id, x :: id in m && x in out && JobRow(id, m[id]) !in out ==> m[id].startedAt <= x.row.startedAt)
  }

  function InsertDesc(x: JobRow, xs: seq<JobRow>): (out: seq<JobRow>)
    ensures multiset(out) == multiset{x} + multiset(xs)
  {
    if xs == [] then [x]
    else if x.row.startedAt >= xs[0].row.startedAt then [x] + xs
    else
      assert xs == [xs[0]] + xs[1..];
      [xs[0]] + InsertDesc(x, xs[1..])
  }

  function SortDesc(xs: seq<JobRow>): (out: seq<JobRow>)
    ensures multiset(out) == multiset(xs)
  {
    if xs == [] then []
    else
      assert xs == [xs[0]] + xs[1..];
      InsertDesc(xs[0], SortDesc(xs[1..]))
  }

  lemma {:induction false} InsertDescOrdered(x: JobRow, xs: seq<JobRow>)
    requires NewestFirst(xs)
    ensures NewestFirst(InsertDesc(x, xs))
  {
    if xs != [] && x.row.startedAt < xs[0].row.startedAt {
      InsertDescOrdered(x, xs[1..]);
      var tail := InsertDesc(x, xs[1..]);
      forall j | 0 <= j < |tail| ensures xs[0].row.startedAt >= tail[j].row.startedAt {
        assert tail[j] in multiset(tail);
        assert tail[j] == x || tail[j] in xs[1..];
      }
    }
  }

  lemma {:induction false} SortDescOrdered(xs: seq<JobRow>)
    ensures NewestFirst(SortDesc(xs))
  {
    if xs != [] {
      SortDescOrdered(xs[1..]);
      InsertDescOrdered(xs[0], SortDesc(xs[1..]));
    }
  }

  ghost predicate DistinctIds(xs: seq<JobRow>) {
    forall i, j :: 0 <= i < j < |xs| ==> xs[i].id != xs[j].id
  }

  ghost function Ids(xs: seq<JobRow>): set<JobId> {
    set i | 0 <= i < |xs| :: xs[i].id
  }

  lemma {:induction false} IdsCount(xs: seq<JobRow>)
    requires DistinctIds(xs)
    ensures |Ids(xs)| == |xs|
  {
    if xs != [] {
      var front, last := xs[..|xs| - 1], xs[|xs| - 1];
      IdsCount(front);
      assert Ids(xs) == Ids(front) + {last.id};
      assert last.id !in Ids(front);
    } else {
      assert Ids(xs) == {};
    }
  }

  lemma ListsCount(xs: seq<JobRow>, m: map<JobId, Row>)
    requires Lists(xs, m)
    ensures |xs| == |m|
  {
    IdsCount(xs);
    forall id ensures id in Ids(xs) <==> id in m {
      if id in m {
        var i :| 0 <= i < |xs| && xs[i] == JobRow(id, m[id]);
      }
      if id in Ids(xs) {
        var i :| 0 <= i < |xs| && xs[i].id == id;
        assert xs[i] in xs;
      }
    }
    assert Ids(xs) == m.Keys;
  }

  lemma {:induction false} DistinctIdsPermute(xs: seq<JobRow>, ys: seq<JobRow>)
    requires multiset(xs) == multiset(ys) && DistinctIds(xs)
    ensures DistinctIds(ys)
  {
    forall i, j | 0 <= i < j < |ys| ensures ys[i].id != ys[j].id {
      assert ys == ys[..j] + ys[j..];
      assert ys[..j][i] == ys[i] && ys[j..][0] == ys[j];
      assert multiset(ys)[ys[i]] == multiset(ys[..j])[ys[i]] + multiset(ys[j..])[ys[i]];
      assert ys[i] in multiset(xs) && ys[j] in multiset(xs);
      var a :| 0 <= a < |xs| && xs[a] == ys[i];
      var b :| 0 <= b < |xs| && xs[b] == ys[j];
      OnceInDistinct(xs, ys[i]);
      assert ys[i] != ys[j];
    }
  }

  lemma {:induction false} OnceInDistinct(xs: seq<JobRow>, x: JobRow)
    requires DistinctIds(xs)
    ensures multiset(xs)[x] <= 1
  {
    if xs != [] {
      var front, last := xs[..|xs| - 1], xs[|xs| - 1];
      assert xs == front + [last];
      OnceInDistinct(front, x);
      if x == last { assert forall y :: y in front ==> y.id != last.id; }
    }
  }

  lemma CutTopK(all: seq<JobRow>, m: map<JobId, Row>, limit: nat)
    requires Lists(all, m) && NewestFirst(all)
    ensures TopK(if |all| > limit then all[..limit] else all, m, limit)
  {
    ListsCount(all, m);
    var out := if |all| > limit then all[..limit] else all;
    assert forall k :: 0 <= k < |out| ==> out[k] == all[k];
    forall id, x | id in m && x in out && JobRow(id, m[id]) !in out ensures m[id].startedAt <= x.row.startedAt {
      var j :| 0 <= j < |all| && all[j] == JobRow(id, m[id]);
      var i :| 0 <= i < |out| && out[i] == x;
      assert all[i] == x;
    }
  }

  /** Sorting all jobs and cutting gives the newest ones. */
  lemma SortCutTopK(xs: seq<JobRow>, m: map<JobId, Row>, limit: nat)
    requires Lists(xs, m)
    ensures var all := SortDesc(xs); TopK(if |all| > limit then all[..limit] else all, m, limit)
  {
    var all := SortDesc(xs);
    SortDescOrdered(xs);
    DistinctIdsPermute(xs, all);
    forall x | x in all ensures x.id in m && m[x.id] == x.row {
      assert x in multiset(all);
    }
    forall id | id in m ensures JobRow(id, m[id]) in all {
      assert JobRow(id, m[id]) in multiset(xs);
    }
    CutTopK(all, m, limit);
  }

  /** The jobs of m in any order, as ranging over the map yields them. */
  method Entries(m: map<JobId, Row>) returns (xs: seq<JobRow>)
    ensures Lists(xs, m)
  {
    xs := [];
    var left := m.Keys;
    while left != {}
      invariant left <= m.Keys
      invariant DistinctIds(xs)
      invariant forall x :: x in xs ==> x.id in m && m[x.id] == x.row && x.id !in left
      invariant forall id :: id in m && id !in left ==> JobRow(id, m[id]) in xs
      decreases left
    {
      var id :| id in left;
      xs := xs + [JobRow(id, m[id])];
      left := left - {id};
    }
  }

  method Newest(m: map<JobId, Row>, limit: nat) returns (out: seq<JobRow>)
    ensures TopK(out, m, limit)
  {
    var xs := Entries(m);
    SortCutTopK(xs, m, limit);
    out := SortDesc(xs);
    if |out| > limit {
      out := out[..limit];
    }
  }

  // ----- a listing merged from store and memory -----

  /** The rows a listing merges: the store's, and in-memory jobs the store's page lacks. */
  function Overlay(page: map<JobId, Row>, mem: map<JobId, Row>): map<JobId, Row> {
    mem + page
  }

  ghost function PageMap(out: seq<JobRow>, m: map<JobId, Row>): map<JobId, Row> {
    map id | id in m && JobRow(id, m[id]) in out :: m[id]
  }

  lemma PageSize(out: seq<JobRow>, m: map<JobId, Row>, limit: nat)
    requires TopK(out, m, limit)
    ensures |PageMap(out, m)| == |out|
  {
    IdsCount(out);
    var page := PageMap(out, m);
    forall id ensures id in Ids(out) <==> id in page.Keys {
      if id in Ids(out) { var i :| 0 <= i < |out| && out[i].id == id; assert out[i] in out; }
      if id in page.Keys { var i :| 0 <= i < |out| && out[i] == JobRow(id, m[id]); }
    }
    assert Ids(out) == page.Keys;
  }

  /** Memory and store agree on when a job started: both take it from the same job. */
  ghost predicate SameStarts(rows: map<JobId, Row>, mem: map<JobId, Row>) {
    forall id :: id in rows && id in mem ==> rows[id].startedAt == mem[id].startedAt
  }

  /** The job, as memory has it or else the store, started no later than x. */
  ghost predicate NoNewer(rows: map<JobId, Row>, mem: map<JobId, Row>, id: JobId, x: JobRow) {
    id in mem || id in rows ==> (if id in mem then mem[id] else rows[id]).startedAt <= x.row.startedAt
  }

  /** Cutting the store at `limit` before merging loses nothing that belongs in the
      listing: no job of the whole union started later than a listed one. */
  lemma MergedListing(page: seq<JobRow>, rows: map<JobId, Row>, mem: map<JobId, Row>,
                      out: seq<JobRow>, limit: nat, id: JobId, x: JobRow)
    requires TopK(page, rows, limit) && SameStarts(rows, mem)
    requires TopK(out, Overlay(PageMap(page, rows), mem), limit)
    requires id in rows || id in mem
    requires x in out && id !in Ids(out)
    ensures NoNewer(rows, mem, id, x)
  {
    var pageMap := PageMap(page, rows);
    var all := Overlay(pageMap, mem);
    if id in all {
      assert forall i :: 0 <= i < |out| ==> out[i].id in Ids(out);
    } else {
      PageFull(page, rows, limit, id);
      PageSize(page, rows, limit);
      assert JobRow(id, rows[id]) !in page;
      if x.row.startedAt < rows[id].startedAt {
        forall k | k in pageMap ensures k in Ids(out) && k != x.id {
          assert JobRow(k, rows[k]) in page;
          AllListed(out, all, limit, k, x);
        }
        OneMore(pageMap.Keys, out, x);
        assert false;
      }
    }
  }

  ghost predicate NoneNewerLeftOut(out: seq<JobRow>, rows: map<JobId, Row>, mem: map<JobId, Row>) {
    forall id, x :: (id in rows || id in mem) && x in out && id !in Ids(out) ==> NoNewer(rows, mem, id, x)
  }

  ghost predicate AtMost(out: seq<JobRow>, ids: set<JobId>, limit: nat) {
    |out| == if |ids| <= limit then |ids| else limit
  }

  /** No other stored job started at the same time as this one. */
  ghost predicate AloneAt(rows: map<JobId, Row>, id: JobId)
    requires id in rows
  {
    forall k :: k in rows && k != id ==> rows[k].startedAt != rows[id].startedAt
  }

  /** Stored jobs appear with their stored row. */
  ghost predicate StoredRowsShown(out: seq<JobRow>, rows: map<JobId, Row>) {
    forall x :: x in out && x.id in rows && AloneAt(rows, x.id) ==> x.row == rows[x.id]
  }

  /** Distinct jobs of store and memory, newest first, all of them or `limit` of them; a job
      in both has its stored row or its memory row, and surely the stored one when the
      store has no more than `limit` jobs; and when both agree on starting times, no job
      left out started later than a listed one, and for any limit a stored job that shares
      its starting time with no other is listed with its stored row. */
  ghost predicate TopOfUnion(out: seq<JobRow>, rows: map<JobId, Row>, mem: map<JobId, Row>, limit: nat) {
    && AtMost(out, rows.Keys + mem.Keys, limit) && NewestFirst(out) && DistinctIds(out)
    && (|rows| <= limit ==> forall x :: x in out && x.id in rows ==> x.row == rows[x.id])
    && (forall x :: x in out ==> (x.id in rows && rows[x.id] == x.row) || (x.id in mem && mem[x.id] == x.row))
    && (SameStarts(rows, mem) ==> NoneNewerLeftOut(out, rows, mem) && StoredRowsShown(out, rows))
  }

  lemma NoneNewer(page: seq<JobRow>, rows: map<JobId, Row>, mem: map<JobId, Row>, out: seq<JobRow>, limit: nat)
    requires TopK(page, rows, limit) && TopK(out, Overlay(PageMap(page, rows), mem), limit) && SameStarts(rows, mem)
    ensures NoneNewerLeftOut(out, rows, mem)
  {
    forall id, x | (id in rows || id in mem) && x in out && id !in Ids(out) ensures NoNewer(rows, mem, id, x) {
      MergedListing(page, rows, mem, out, limit, id, x);
    }
  }

  lemma MergedListingAll(page: seq<JobRow>, rows: map<JobId, Row>, mem: map<JobId, Row>, out: seq<JobRow>, limit: nat)
    requires TopK(page, rows, limit) && TopK(out, Overlay(PageMap(page, rows), mem), limit)
    ensures TopOfUnion(out, rows, mem, limit)
  {
    UnionSize(page, rows, mem, out, limit);
    if |rows| <= limit {
      WholePage(page, rows, limit);
    }
    if SameStarts(rows, mem) {
      NoneNewer(page, rows, mem, out, limit);
      forall x | x in out && x.id in rows && AloneAt(rows, x.id) ensures x.row == rows[x.id] {
        ShownAsStored(page, rows, mem, out, limit, x);
      }
    }
  }

  /** A stored job that the store's page lacks is older than the whole page, which then
      fills the listing without it. */
  lemma ShownAsStored(page: seq<JobRow>, rows: map<JobId, Row>, mem: map<JobId, Row>,
                      out: seq<JobRow>, limit: nat, x: JobRow)
    requires TopK(page, rows, limit) && TopK(out, Overlay(PageMap(page, rows), mem), limit) && SameStarts(rows, mem)
    requires x in out && x.id in rows && AloneAt(rows, x.id)
    ensures x.row == rows[x.id]
  {
    var pageMap := PageMap(page, rows);
    if x.id !in pageMap {
      PageFull(page, rows, limit, x.id);
      PageSize(page, rows, limit);
      forall k | k in pageMap ensures k in Ids(out) && k != x.id {
        assert JobRow(k, rows[k]) in page;
        AllListed(out, Overlay(pageMap, mem), limit, k, x);
      }
      OneMore(pageMap.Keys, out, x);
      assert false;
    }
  }

  /** Memory is fresher only where it makes no difference: a listed job is shown as memory
      has it if and only if the store has no row for it or the same row. */
  lemma MemoryShownIff(out: seq<JobRow>, rows: map<JobId, Row>, mem: map<JobId, Row>, limit: nat, x: JobRow)
    requires TopOfUnion(out, rows, mem, limit) && SameStarts(rows, mem)
    requires x in out && x.id in mem && (x.id in rows ==> AloneAt(rows, x.id))
    ensures x.row == mem[x.id] <==> x.id !in rows || rows[x.id] == mem[x.id]
  {
  }

  lemma WholePage(page: seq<JobRow>, rows: map<JobId, Row>, limit: nat)
    requires TopK(page, rows, limit) && |rows| <= limit
    ensures PageMap(page, rows) == rows
  {
    forall id | id in rows ensures id in PageMap(page, rows) {
      if id !in PageMap(page, rows) {
        PageSize(page, rows, limit);
        assert PageMap(page, rows).Keys <= rows.Keys - {id};
        Fits(PageMap(page, rows).Keys, rows.Keys - {id});
        assert false;
      }
    }
  }

  /** A page that is cut already fills the listing. */
  lemma UnionSize(page: seq<JobRow>, rows: map<JobId, Row>, mem: map<JobId, Row>, out: seq<JobRow>, limit: nat)
    requires TopK(page, rows, limit) && TopK(out, Overlay(PageMap(page, rows), mem), limit)
    ensures AtMost(out, rows.Keys + mem.Keys, limit)
  {
    var pageMap := PageMap(page, rows);
    var all := Overlay(pageMap, mem);
    assert all.Keys == pageMap.Keys + mem.Keys;
    assert |all| == |all.Keys|;
    if |rows| <= limit {
      WholePage(page, rows, limit);
    } else {
      PageSize(page, rows, limit);
      Fits(pageMap.Keys, all.Keys);
      Fits(all.Keys, rows.Keys + mem.Keys);
    }
  }

  /** A job newer than a listed one is listed. */
  lemma AllListed(out: seq<JobRow>, all: map<JobId, Row>, limit: nat, k: JobId, x: JobRow)
    requires TopK(out, all, limit) && k in all && x in out && all[k].startedAt > x.row.startedAt
    ensures k in Ids(out)
  {
    assert JobRow(k, all[k]) in out;
    var i :| 0 <= i < |out| && out[i] == JobRow(k, all[k]);
  }

  lemma OneMore(keys: set<JobId>, out: seq<JobRow>, x: JobRow)
    requires DistinctIds(out) && x in out && forall k :: k in keys ==> k in Ids(out) && k != x.id
    ensures |keys| < |out|
  {
    var i :| 0 <= i < |out| && out[i] == x;
    IdsCount(out);
    Fits(keys + {x.id}, Ids(out));
  }

  lemma PageFull(page: seq<JobRow>, rows: map<JobId, Row>, limit: nat, id: JobId)
    requires TopK(page, rows, limit) && id in rows && id !in PageMap(page, rows)
    ensures |page| == limit
  {
    PageSize(page, rows, limit);
    if |rows| <= limit {
      Fits(rows.Keys, rows.Keys);
      assert PageMap(page, rows).Keys <= rows.Keys - {id};
      Fits(PageMap(page, rows).Keys, rows.Keys - {id});
    }
  }

  lemma Member<T>(s: set<T>) returns (x: T)
    requires s != {}
    ensures x in s
  {
    x :| x in s;
  }

  lemma {:induction false} Fits<T>(a: set<T>, b: set<T>)
    requires a <= b
    ensures |a| <= |b|
  {
    if a != {} {
      var x :| x in a;
      Fits(a - {x}, b - {x});
    }
  }
}

/** The persisted tables, the writer's queue in front of them, and what each of its
    actions does. */
module StoreSpec {
  import opened Options
  import opened Recs
  import opened Listing

  const CHANNEL_CAP := 65536
  const WRITE_BATCH_LEN := 500

  datatype Fin = Fin(state: JobState, exitCode: int, finishedAt: int)

  datatype Item = LineItem(job: JobId, rec: Rec) | FinItem(job: JobId, fin: Fin)

  datatype Key = Key(job: JobId, seqno: int)

  datatype Cell = Cell(stream: int, line: Text)

  datatype Db = Db(rows: map<JobId, Row>, lines: map<Key, Cell>)

  /** Inserting a line replaces one with the same key; finishing a job without a row
      changes nothing. */
  function Put(db: Db, item: Item): Db {
    match item
    case LineItem(job, rec) => db.(lines := db.lines[Key(job, rec.seqno) := Cell(rec.stream, rec.line)])
    case FinItem(job, fin) =>
      if job in db.rows then
        db.(rows := db.rows[job := db.rows[job].(state := fin.state, exitCode := fin.exitCode, finishedAt := fin.finishedAt)])
      else db
  }

  function PutAll(db: Db, items: seq<Item>): Db {
    if items == [] then db else Put(PutAll(db, items[..|items| - 1]), items[|items| - 1])
  }

  lemma PutSnoc(db: Db, items: seq<Item>, item: Item)
    ensures PutAll(db, items + [item]) == Put(PutAll(db, items), item)
  {
    assert (items + [item])[..|items|] == items;
  }

  function NewRow(db: Db, job: JobId, command: string, startedAt: int): Db {
    db.(rows := db.rows[job := Row(command, Running, 0, startedAt, 0)])
  }

  /** At boot every row still running belongs to a process that died. */
  function Recovered(db: Db, now: int): Db {
    db.(rows := map j | j in db.rows ::
      if db.rows[j].state == Running then db.rows[j].(state := Failed, exitCode := 137, finishedAt := now)
      else db.rows[j])
  }

  predicate Expired(row: Row, cutoff: int) {
    row.state != Running && row.finishedAt > 0 && row.finishedAt < cutoff
  }

  ghost predicate NoneExpired(rows: map<JobId, Row>, cutoff: int) {
    forall j :: j in rows ==> !Expired(rows[j], cutoff)
  }

  lemma NothingToDelete(rows: map<JobId, Row>, cutoff: int)
    ensures var left := map j | j in rows && !Expired(rows[j], cutoff) :: rows[j];
            |left| == |rows| <==> NoneExpired(rows, cutoff)
  {
    var left := map j | j in rows && !Expired(rows[j], cutoff) :: rows[j];
    if NoneExpired(rows, cutoff) {
      assert left == rows;
    } else {
      var j :| j in rows && Expired(rows[j], cutoff);
      assert left.Keys <= rows.Keys - {j};
      Fits(left.Keys, rows.Keys - {j});
    }
  }

  /** Deletes expired rows, then every line whose job has no row. */
  function Retained(db: Db, cutoff: int): Db {
    var rows := map j | j in db.rows && !Expired(db.rows[j], cutoff) :: db.rows[j];
    Db(rows, map k | k in db.lines && k.job in rows :: db.lines[k])
  }

  /** What a trim leaves: the rows still running, without a finishing time, or finished no
      earlier than the cutoff, and the lines of jobs with such a row, all unchanged. */
  lemma TrimExact(db: Db, cutoff: int)
    ensures var t := Retained(db, cutoff);
            && (forall j :: j in t.rows <==>
                  j in db.rows && (db.rows[j].state == Running || db.rows[j].finishedAt <= 0 || db.rows[j].finishedAt >= cutoff))
            && (forall j :: j in t.rows ==> t.rows[j] == db.rows[j])
            && (forall k :: k in t.lines <==> k in db.lines && k.job in t.rows)
            && (forall k :: k in t.lines ==> t.lines[k] == db.lines[k])
  {
  }

  /** What storing one item changes, and nothing else. */
  lemma PutExact(db: Db, item: Item)
    ensures item.LineItem? ==>
              Put(db, item).rows == db.rows && Stored(Put(db, item), item.job, item.rec)
              && (forall k :: k != Key(item.job, item.rec.seqno) ==>
                    (k in Put(db, item).lines <==> k in db.lines) && (k in db.lines ==> Put(db, item).lines[k] == db.lines[k]))
    ensures item.FinItem? ==>
              var t := Put(db, item);
              t.lines == db.lines && t.rows.Keys == db.rows.Keys
              && (forall j :: j in db.rows && j != item.job ==> t.rows[j] == db.rows[j])
              && (item.job in db.rows ==>
                    t.rows[item.job] == Row(db.rows[item.job].command, item.fin.state, item.fin.exitCode,
                                            db.rows[item.job].startedAt, item.fin.finishedAt))
  {
  }

  /** The queue takes an item while fewer than 65536 wait; a line it cannot take is counted. */
  lemma OfferExact(w: Writer, item: Item)
    ensures Offer(w, item).ch == if |w.ch| < 65536 then w.ch + [item] else w.ch
    ensures Offer(w, item).dropped == w.dropped + if |w.ch| >= 65536 && item.LineItem? then 1 else 0
    ensures Offer(w, item).batch == w.batch && Offer(w, item).db == w.db && Offer(w, item).hand == w.hand
  {
  }

  predicate Stored(db: Db, job: JobId, r: Rec) {
    Key(job, r.seqno) in db.lines && db.lines[Key(job, r.seqno)] == Cell(r.stream, r.line)
  }

  // ----- reading lines back -----

  function Numbers(db: Db, job: JobId): set<int> {
    set k | k in db.lines && k.job == job :: k.seqno
  }

  lemma {:induction false} HasMin(s: set<int>)
    requires s != {}
    ensures exists m :: m in s && forall k :: k in s ==> m <= k
  {
    var x := Member(s);
    var rest := s - {x};
    if rest == {} {
      assert forall k :: k in s ==> k in rest || x <= k;
    } else {
      HasMin(rest);
      var m :| m in rest && forall k :: k in rest ==> m <= k;
      var least := if x < m then x else m;
      forall k | k in s ensures least <= k {
        assert k == x || k in rest;
      }
    }
  }

  function Smallest(s: set<int>): (m: int)
    requires s != {}
    ensures m in s && forall k :: k in s ==> m <= k
  {
    HasMin(s);
    var m :| m in s && forall k :: k in s ==> m <= k;
    m
  }

  function Ascending(s: set<int>): (out: seq<int>)
    ensures forall n :: n in out <==> n in s
    ensures forall i, j :: 0 <= i < j < |out| ==> out[i] < out[j]
    decreases s
  {
    if s == {} then []
    else
      var m := Smallest(s);
      [m] + Ascending(s - {m})
  }

  function RecsOf(db: Db, job: JobId, ns: seq<int>): (rs: seq<Rec>)
    requires forall n :: n in ns ==> Key(job, n) in db.lines
    ensures |rs| == |ns|
    ensures forall i :: 0 <= i < |ns| ==> rs[i].seqno == ns[i] && Stored(db, job, rs[i])
  {
    seq(|ns|, i requires 0 <= i < |ns| =>
      var cell := db.lines[Key(job, ns[i])]; Rec(ns[i], cell.stream, cell.line))
  }

  /** The stored lines of a job, one stream or all, by number. */
  function QueryRecs(db: Db, job: JobId, s: int): seq<Rec> {
    Keep(RecsOf(db, job, Ascending(Numbers(db, job))), s)
  }

  lemma QueryExact(db: Db, job: JobId, s: int)
    ensures Increasing(QueryRecs(db, job, s))
    ensures forall r :: r in QueryRecs(db, job, s) <==> Stored(db, job, r) && Want(r, s)
  {
    var ns := Ascending(Numbers(db, job));
    var all := RecsOf(db, job, ns);
    KeepIncreasing(all, s);
    forall r ensures r in all <==> Stored(db, job, r) {
      if Stored(db, job, r) {
        assert Key(job, r.seqno).seqno in Numbers(db, job);
        assert r.seqno in ns;
        var i :| 0 <= i < |ns| && ns[i] == r.seqno;
        assert all[i] == r;
      }
    }
  }

  lemma QueryUnique(db: Db, job: JobId, s: int, out: seq<Rec>)
    requires Increasing(out) && forall r :: r in out <==> Stored(db, job, r) && Want(r, s)
    ensures out == QueryRecs(db, job, s)
  {
    QueryExact(db, job, s);
    IncreasingUnique(out, QueryRecs(db, job, s));
  }

  // ----- the writer -----

  /** ch: accepted and not yet received; batch: received and not yet committed;
      hand: a finish record received, to be applied once the batch is committed. */
  datatype Writer = Writer(ch: seq<Item>, batch: seq<Item>, hand: Option<Item>, db: Db, dropped: nat)

  function Offer(w: Writer, item: Item): Writer {
    if |w.ch| < CHANNEL_CAP then w.(ch := w.ch + [item])
    else if item.LineItem? then w.(dropped := w.dropped + 1) else w
  }

  predicate CanReceive(w: Writer) {
    w.ch != [] && w.hand.None? && |w.batch| < WRITE_BATCH_LEN
  }

  function Receive(w: Writer): Writer
    requires CanReceive(w)
  {
    if w.ch[0].LineItem? then w.(ch := w.ch[1..], batch := w.batch + [w.ch[0]])
    else w.(ch := w.ch[1..], hand := Some(w.ch[0]))
  }

  /** A transaction that stores the first n lines of the batch; the batch is emptied
      even when the database refused some or all of it. */
  function Commit(w: Writer, n: nat): Writer
    requires n <= |w.batch|
  {
    w.(batch := [], db := PutAll(w.db, w.batch[..n]))
  }

  predicate CanFinalize(w: Writer) {
    w.hand.Some? && w.batch == []
  }

  function Finalize(w: Writer, ok: bool): Writer
    requires CanFinalize(w)
  {
    w.(hand := None, db := if ok then Put(w.db, w.hand.value) else w.db)
  }

  /** One turn of the writer's loop on a received item: a full batch is committed at
      once, and a finish record only after the lines before it. */
  function Turn(w: Writer, n: nat, ok: bool): Writer
    requires CanReceive(w)
  {
    var got := Receive(w);
    var stored := if n <= |got.batch| then n else |got.batch|;
    if got.hand.Some? then Finalize(Commit(got, stored), ok)
    else if |got.batch| >= WRITE_BATCH_LEN then Commit(got, stored)
    else got
  }

  lemma {:induction false} PutAllAppend(db: Db, a: seq<Item>, b: seq<Item>)
    ensures PutAll(db, a + b) == PutAll(PutAll(db, a), b)
  {
    if b == [] {
      assert a + b == a;
    } else {
      PutAllAppend(db, a, b[..|b| - 1]);
      assert (a + b)[..|a + b| - 1] == a + b[..|b| - 1];
    }
  }

  /** A turn on which the database refuses nothing loses nothing and keeps the order: the
      tables and what is left of the batch are as if everything batched and the item received
      were stored one after the other. A finish record leaves no line behind it in the batch,
      and a batch never reaches 500 lines. */
  lemma TurnKeepsOrder(w: Writer, n: nat)
    requires CanReceive(w) && n > |w.batch|
    ensures var t := Turn(w, n, true);
            && t.ch == w.ch[1..] && t.hand.None? && t.dropped == w.dropped
            && PutAll(t.db, t.batch) == PutAll(w.db, w.batch + [w.ch[0]])
            && (w.ch[0].FinItem? ==> t.batch == [])
            && (w.ch[0].LineItem? ==> t.batch == if |w.batch| == 499 then [] else w.batch + [w.ch[0]])
  {
    var t := Turn(w, n, true);
    PutSnoc(w.db, w.batch, w.ch[0]);
    assert w.batch[..|w.batch|] == w.batch;
    assert (w.batch + [w.ch[0]])[..|w.batch| + 1] == w.batch + [w.ch[0]];
  }

  /** Whatever the database refuses, only lines of the batch or the finish record itself are
      lost, and what a turn stores is a first part of the batch, then the finish record. */
  lemma TurnStoresPrefix(w: Writer, n: nat, ok: bool)
    requires CanReceive(w)
    ensures var t := Turn(w, n, ok);
            && t.ch == w.ch[1..] && t.hand.None?
            && (t.batch == [] || (t.db == w.db && t.batch == w.batch + [w.ch[0]] && w.ch[0].LineItem?))
            && (w.ch[0].FinItem? ==>
                  var lines := PutAll(w.db, w.batch[..if n <= |w.batch| then n else |w.batch|]);
                  t.db == if ok then Put(lines, w.ch[0]) else lines)
  {
  }
}

/** The store as the program keeps it. */
module Stores {
  import opened Options
  import opened Recs
  import opened Listing
  import opened StoreSpec

  class Store {
    var ch: seq<Item>
    var batch: seq<Item>
    var rows: map<JobId, Row>
    var lines: map<Key, Cell>
    var dropped: nat

    function Tables(): Db
      reads this
    {
      Db(rows, lines)
    }

    function State(): Writer
      reads this
    {
      Writer(ch, batch, None, Tables(), dropped)
    }

    ghost predicate Valid()
      reads this
    {
      |batch| < WRITE_BATCH_LEN && |ch| <= CHANNEL_CAP && forall b :: b in batch ==> b.LineItem?
    }

    /** Opens the store over what a previous process left behind. */
    constructor (left: Db, now: int)
      ensures Valid()
      ensures State() == Writer([], [], None, Recovered(left, now), 0)
    {
      ch, batch, dropped := [], [], 0;
      rows, lines := left.rows, left.lines;
      new;
      Recover(now);
    }

    method Recover(now: int)
      requires Valid()
      modifies this`rows
      ensures Valid() && Tables() == Recovered(old(Tables()), now)
    {
      rows := map j | j in rows ::
        if rows[j].state == Running then rows[j].(state := Failed, exitCode := 137, finishedAt := now)
        else rows[j];
    }

    /** `willing` is whether the database takes the row. */
    method EnqueueJob(id: JobId, command: string, startedAt: int, willing: bool) returns (ok: bool)
      requires Valid()
      modifies this`rows
      ensures Valid() && ok == willing
      ensures Tables() == if ok then NewRow(old(Tables()), id, command, startedAt) else old(Tables())
    {
      if willing {
        rows := rows[id := Row(command, Running, 0, startedAt, 0)];
      }
      ok := willing;
    }

    method TryEnqueueLine(job: JobId, rec: Rec)
      requires Valid()
      modifies this`ch, this`dropped
      ensures Valid() && State() == Offer(old(State()), LineItem(job, rec))
    {
      if |ch| < CHANNEL_CAP {
        ch := ch + [LineItem(job, rec)];
      } else {
        dropped := dropped + 1;
      }
    }

    method FinishJob(job: JobId, fin: Fin)
      requires Valid()
      modifies this`ch
      ensures Valid() && State() == Offer(old(State()), FinItem(job, fin))
    {
      if |ch| < CHANNEL_CAP {
        ch := ch + [FinItem(job, fin)];
      }
    }

    /** `stored` is how many of the batch's inserts the database accepts. */
    method Flush(stored: nat)
      requires stored <= |batch| && forall b :: b in batch ==> b.LineItem?
      modifies this`batch, this`lines
      ensures batch == [] && Tables() == PutAll(old(Tables()), old(batch)[..stored])
    {
      if |batch| == 0 {
        return;
      }
      var i := 0;
      while i < |batch|
        invariant 0 <= i <= |batch| && batch == old(batch) && rows == old(rows)
        invariant i <= stored && Tables() == PutAll(old(Tables()), batch[..i])
      {
        if i >= stored {
          break;
        }
        var r := batch[i];
        assert r in batch;
        PutSnoc(old(Tables()), batch[..i], r);
        assert batch[..i + 1] == batch[..i] + [r];
        lines := lines[Key(r.job, r.rec.seqno) := Cell(r.rec.stream, r.rec.line)];
        i := i + 1;
      }
      assert i == stored;
      batch := [];
    }

    /** The writer's turn on an item from the channel. */
    method OnItem(stored: nat, updated: bool)
      requires Valid() && ch != []
      modifies this
      ensures Valid() && State() == Turn(old(State()), stored, updated)
    {
      var rec := ch[0];
      ch := ch[1..];
      match rec
      case LineItem(_, _) =>
        batch := batch + [rec];
        if |batch| >= WRITE_BATCH_LEN {
          Flush(if stored <= |batch| then stored else |batch|);
        }
      case FinItem(job, fin) =>
        Flush(if stored <= |batch| then stored else |batch|);
        if updated && job in rows {
          rows := rows[job := rows[job].(state := fin.state, exitCode := fin.exitCode, finishedAt := fin.finishedAt)];
        }
    }

    /** The 200 ms tick, and the last thing the writer does when the store closes: the
        batch is flushed, the channel is not emptied. */
    method OnTick(stored: nat)
      requires Valid() && stored <= |batch|
      modifies this`batch, this`lines
      ensures Valid() && State() == Commit(old(State()), stored)
    {
      Flush(stored);
    }

    /** The stored lines of one stream, or of all, by number. */
    method QueryLines(job: JobId, s: int) returns (out: seq<Rec>)
      ensures Increasing(out) && forall r :: r in out <==> Stored(Tables(), job, r) && Want(r, s)
    {
      out := QueryRecs(Tables(), job, s);
      QueryExact(Tables(), job, s);
    }

    method QueryJobs(limit: nat) returns (out: seq<JobRow>)
      ensures TopK(out, rows, limit)
    {
      out := Newest(rows, limit);
    }

    /** Returns how many jobs the delete removed. `ran` is whether the database took the
        statements: if not, the answer is 0. `committed` is whether the transaction then
        went through: if not, nothing is deleted, and the answer still counts. */
    method Retention(cutoff: int, ran: bool, committed: bool) returns (n: int)
      requires Valid()
      modifies this`rows, this`lines
      ensures Valid() && Tables() == if ran && committed then Retained(old(Tables()), cutoff) else old(Tables())
      ensures n == if ran then |old(rows)| - |Retained(old(Tables()), cutoff).rows| else 0
      ensures n >= 0
      ensures n == |old(rows)| - |rows| <==> !ran || committed || NoneExpired(old(rows), cutoff)
    {
      if !ran {
        return 0;
      }
      NothingToDelete(rows, cutoff);
      var left := map j | j in rows && !Expired(rows[j], cutoff) :: rows[j];
      Fits(left.Keys, rows.Keys);
      n := |rows| - |left|;
      if committed {
        rows := left;
        lines := map k | k in lines && k.job in rows :: lines[k];
      }
    }
  }
}
