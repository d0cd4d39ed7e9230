/** Reading a job's history back while it is still being written. */
module Reading {
  import opened Recs
  import opened Merge
  import opened StoreSpec
  import opened Pipeline
  import opened Persistence
  import opened Paging

  function Query(s: Sys, k: int): seq<Rec> {
    QueryRecs(s.w.db, s.job.id, k)
  }

  /** A merged read whose table query, stdout copy and stderr copy happen in states
      q, a and b of one run. */
  function ReadAcross(q: Sys, a: Sys, b: Sys, k: int): seq<Rec> {
    Merged(Query(q, k), a.job.out.recs, b.job.err.recs, k)
  }

  /** Lines wanted by a reader of k entered the queue in order, none of them skipped. */
  ghost predicate InOrder(s: Sys, k: int) {
    Keep(Mine(s.h.accepted, s.job.id), k) <= Keep(s.job.log, k)
  }

  ghost predicate Clean(s: Sys) {
    s.h.failed == 0 && Spared(s.h.start, s.h.ops, s.job.id)
  }

  /** Every state of a run, with what the runs between them preserve. */
  ghost predicate Reached(s0: Sys, q: Sys, a: Sys, b: Sys, l0: seq<Label>, l1: seq<Label>, l2: seq<Label>) {
    Initial(s0) && Path(s0, l0, q) && Path(q, l1, a) && Path(a, l2, b)
  }

  lemma ReachedInv(s0: Sys, q: Sys, a: Sys, b: Sys, l0: seq<Label>, l1: seq<Label>, l2: seq<Label>)
    requires Reached(s0, q, a, b, l0, l1, l2)
    ensures Inv(q) && Inv(a) && Inv(b)
    ensures q.job.log <= a.job.log <= b.job.log
    ensures q.job.id == a.job.id == b.job.id && q.h.start == s0.h.start
  {
    Start(s0);
    Run(s0, l0, q);
    Run(q, l1, a);
    Run(a, l2, b);
  }

  lemma RingGrown(log: seq<Rec>, more: seq<Rec>, ring: seq<Rec>, k: int)
    requires log <= more && RingOf(ring, log, k)
    ensures RingOf(ring, more, k)
  {
  }

  /** Unconditional soundness: under any drops, reorderings, evictions, refused writes and
      retention, and with steps of any kind between the query and the two copies, a merged
      read strictly increases and holds only lines of the requested stream that were
      completed under those numbers. */
  lemma ReadSound(s0: Sys, q: Sys, a: Sys, b: Sys, l0: seq<Label>, l1: seq<Label>, l2: seq<Label>, k: int)
    requires Reached(s0, q, a, b, l0, l1, l2)
    ensures Increasing(ReadAcross(q, a, b, k))
    ensures forall r :: r in ReadAcross(q, a, b, k) ==> r in b.job.log && Want(r, k)
  {
    ReachedInv(s0, q, a, b, l0, l1, l2);
    QuerySound(q, k);
    RingFacts(a.job, STDOUT);
    RingFacts(b.job, STDERR);
    RingGrown(a.job.log, b.job.log, a.job.out.recs, STDOUT);
    assert forall r :: r in q.job.log ==> r in b.job.log;
    MergedSound(b.job.log, Query(q, k), a.job.out.recs, b.job.err.recs, k);
  }

  // ----- which rows are there -----

  /** In a clean run with lines queued in order, the rows of stream k are its first
      lines: those written so far. */
  lemma QueryIsPrefix(s: Sys, k: int)
    requires Inv(s) && Clean(s) && InOrder(s, k)
    ensures Query(s, k) == Keep(Mine(Writes(s.h.ops), s.job.id), k)
    ensures Query(s, k) <= Keep(s.job.log, k)
  {
    var written := Keep(Mine(Writes(s.h.ops), s.job.id), k);
    var queued, kept := Keep(Mine(s.h.accepted, s.job.id), k), Keep(s.job.log, k);
    assert Writes(s.h.ops) <= Held(s);
    MinePrefix(Writes(s.h.ops), s.h.accepted, s.job.id);
    KeepPrefix(Mine(Writes(s.h.ops), s.job.id), Mine(s.h.accepted, s.job.id), k);
    KeepIncreasing(s.job.log, k);
    PrefixTrans(written, queued, kept);
    QuerySound(s, k);
    forall r ensures r in Query(s, k) <==> r in written { QueryElems(s, k, r); }
    IncreasingUnique(Query(s, k), written);
  }

  lemma PrefixTrans(a: seq<Rec>, b: seq<Rec>, c: seq<Rec>)
    requires a <= b <= c && Increasing(c)
    ensures a <= c && Increasing(a)
  {
  }

  // ----- exactness -----

  /** One stream, no atomicity needed: with rows fetched in state q of a clean, in-order
      run and the ring copied in a later state a, the read is exactly the stream's history
      at the copy if and only if the ring had by then evicted no more lines of the stream
      than the query returned. */
  lemma ReadOneExact(s0: Sys, q: Sys, a: Sys, b: Sys, l0: seq<Label>, l1: seq<Label>, l2: seq<Label>, k: int)
    requires Reached(s0, q, a, b, l0, l1, l2) && k in {STDOUT, STDERR}
    requires Clean(q) && InOrder(q, k)
    ensures k == STDOUT ==>
              (ReadAcross(q, a, b, k) == Keep(a.job.log, k) <==> a.job.out.dropped <= |Query(q, k)|)
    ensures k == STDERR ==>
              (ReadAcross(q, a, b, k) == Keep(b.job.log, k) <==> b.job.err.dropped <= |Query(q, k)|)
  {
    RowsOf(s0, q, a, b, l0, l1, l2, k);
    var c := if k == STDOUT then a else b;
    KeepPrefix(q.job.log, c.job.log, k);
    PrefixWithinLater(Query(q, k), q.job.log, c.job.log, k);
    OneRing(Query(q, k), a.job, b.job, k);
  }

  /** The rows a clean, in-order query returns, beside the jobs of later states. */
  lemma RowsOf(s0: Sys, q: Sys, a: Sys, b: Sys, l0: seq<Label>, l1: seq<Label>, l2: seq<Label>, k: int)
    requires Reached(s0, q, a, b, l0, l1, l2) && Clean(q) && InOrder(q, k)
    ensures JobInv(q.job) && JobInv(a.job) && JobInv(b.job) && q.job.log <= a.job.log <= b.job.log
    ensures Query(q, k) <= Keep(q.job.log, k) && Increasing(Query(q, k))
    ensures forall r :: r in Query(q, k) ==> r in q.job.log && Want(r, k)
  {
    ReachedInv(s0, q, a, b, l0, l1, l2);
    QueryIsPrefix(q, k);
    QuerySound(q, k);
  }

  lemma PrefixWithinLater(rows: seq<Rec>, log: seq<Rec>, more: seq<Rec>, k: int)
    requires log <= more && rows <= Keep(log, k) <= Keep(more, k)
    requires forall r :: r in rows ==> r in log && Want(r, k)
    ensures rows <= Keep(more, k) && forall r :: r in rows ==> r in more && Want(r, k)
  {
  }

  lemma OneRing(persisted: seq<Rec>, a: Job, b: Job, k: int)
    requires JobInv(a) && JobInv(b) && k in {STDOUT, STDERR}
    requires var c := if k == STDOUT then a else b;
             && persisted <= Keep(c.log, k) && Increasing(persisted)
             && (forall r :: r in persisted ==> r in c.log && Want(r, k))
    ensures var c := if k == STDOUT then a else b;
            Merged(persisted, a.out.recs, b.err.recs, k) == Keep(c.log, k) <==> Ring(c, k).dropped <= |persisted|
  {
    var c := if k == STDOUT then a else b;
    RingFacts(c, k);
    assert RingOf([], c.log, STDERR - k);
    if k == STDOUT {
      MergedOneExact(c.log, persisted, a.out.recs, [], k, c.out.dropped);
    } else {
      MergedOneExact(c.log, persisted, [], b.err.recs, k, c.err.dropped);
    }
    assert Fresh(a.out.recs, b.err.recs, k, MaxSeqno(persisted)) ==
           Fresh(if k == STDOUT then a.out.recs else [], if k == STDERR then b.err.recs else [], k, MaxSeqno(persisted));
  }

  /** All streams: with rows fetched in q, stdout copied in a and stderr in b, the read is
      the whole history at b if and only if neither ring had evicted more lines than the
      query returned for its stream and no stdout line was completed between the copies.
      A read that is one step (q = a = b) needs only the first. */
  lemma ReadAllExact(s0: Sys, q: Sys, a: Sys, b: Sys, l0: seq<Label>, l1: seq<Label>, l2: seq<Label>)
    requires Reached(s0, q, a, b, l0, l1, l2)
    requires Clean(q) && InOrder(q, -1)
    ensures ReadAcross(q, a, b, -1) == b.job.log <==>
            && a.job.out.dropped <= |Keep(Query(q, -1), STDOUT)|
            && b.job.err.dropped <= |Keep(Query(q, -1), STDERR)|
            && Keep(a.job.log, STDOUT) == Keep(b.job.log, STDOUT)
  {
    RowsOf(s0, q, a, b, l0, l1, l2, -1);
    KeepEvery(q.job.log, -1);
    BothRings(Query(q, -1), q.job.log, a.job, b.job);
  }

  lemma BothRings(persisted: seq<Rec>, log: seq<Rec>, a: Job, b: Job)
    requires JobInv(a) && JobInv(b) && persisted <= log <= a.log <= b.log && Increasing(persisted)
    ensures Merged(persisted, a.out.recs, b.err.recs, -1) == b.log <==>
            && a.out.dropped <= |Keep(persisted, STDOUT)|
            && b.err.dropped <= |Keep(persisted, STDERR)|
            && Keep(a.log, STDOUT) == Keep(b.log, STDOUT)
  {
    RingFacts(a, STDOUT);
    RingFacts(b, STDERR);
    assert persisted <= a.log;
    assert forall r :: r in persisted ==> r in a.log;
    MergedAllExact(a.log, b.log, persisted, a.out.recs, b.err.recs, a.out.dropped, b.err.dropped);
  }

  /** Without assuming order, no drops or a willing database: the read of one stream is
      exact if and only if the rows are the stream's first lines and the ring still had
      the rest. */
  lemma ReadOneExactAlways(s0: Sys, q: Sys, a: Sys, l0: seq<Label>, l1: seq<Label>, k: int)
    requires Reached(s0, q, a, a, l0, l1, []) && k in {STDOUT, STDERR}
    ensures ReadAcross(q, a, a, k) == Keep(a.job.log, k) <==>
            Query(q, k) <= Keep(a.job.log, k) && Ring(a.job, k).dropped <= |Query(q, k)|
  {
    ReachedInv(s0, q, a, a, l0, l1, []);
    QuerySound(q, k);
    RingFacts(a.job, STDOUT);
    RingFacts(a.job, STDERR);
    assert forall r :: r in q.job.log ==> r in a.job.log;
    MergedOneExact(a.job.log, Query(q, k), a.job.out.recs, a.job.err.recs, k, Ring(a.job, k).dropped);
  }

  /** The same for both streams: exact if and only if the rows are the first lines, neither
      ring had evicted a line beyond them, and no stdout line was completed between the two
      copies. */
  lemma ReadAllExactAlways(s0: Sys, q: Sys, a: Sys, b: Sys, l0: seq<Label>, l1: seq<Label>, l2: seq<Label>)
    requires Reached(s0, q, a, b, l0, l1, l2)
    ensures ReadAcross(q, a, b, -1) == b.job.log <==>
            && Query(q, -1) <= b.job.log
            && a.job.out.dropped <= |Keep(Query(q, -1), STDOUT)|
            && b.job.err.dropped <= |Keep(Query(q, -1), STDERR)|
            && Keep(a.job.log, STDOUT) == Keep(b.job.log, STDOUT)
  {
    AnyRows(s0, q, a, b, l0, l1, l2, -1);
    AnyRowsBothRings(Query(q, -1), a.job, b.job);
  }

  /** What is known of the rows with no assumption on queue or database. */
  lemma AnyRows(s0: Sys, q: Sys, a: Sys, b: Sys, l0: seq<Label>, l1: seq<Label>, l2: seq<Label>, k: int)
    requires Reached(s0, q, a, b, l0, l1, l2)
    ensures JobInv(a.job) && JobInv(b.job) && a.job.log <= b.job.log && Increasing(Query(q, k))
    ensures forall r :: r in Query(q, k) ==> r in a.job.log && Want(r, k)
  {
    ReachedInv(s0, q, a, b, l0, l1, l2);
    QuerySound(q, k);
  }

  lemma AnyRowsBothRings(persisted: seq<Rec>, a: Job, b: Job)
    requires JobInv(a) && JobInv(b) && a.log <= b.log && Increasing(persisted)
    requires forall r :: r in persisted ==> r in a.log
    ensures Merged(persisted, a.out.recs, b.err.recs, -1) == b.log <==>
            && persisted <= b.log
            && a.out.dropped <= |Keep(persisted, STDOUT)|
            && b.err.dropped <= |Keep(persisted, STDERR)|
            && Keep(a.log, STDOUT) == Keep(b.log, STDOUT)
  {
    RingFacts(a, STDOUT);
    RingFacts(b, STDERR);
    MergedAllExact(a.log, b.log, persisted, a.out.recs, b.err.recs, a.out.dropped, b.err.dropped);
  }

  // ----- the final table -----

  /** Once every callback has been delivered and the writer has nothing left of the job,
      with nothing dropped or refused, the table holds the job's history: in number order,
      whatever the order of arrival, the batching and the ticks were. */
  lemma FinalTable(s: Sys, ls: seq<Label>, t: Sys, k: int)
    requires Initial(s) && Path(s, ls, t) && Clean(t)
    requires t.job.pend == []
    requires forall r :: LineItem(t.job.id, r) !in t.h.lost
    requires forall r :: LineItem(t.job.id, r) !in t.w.batch + t.w.ch
    ensures Query(t, k) == Keep(t.job.log, k)
  {
    Start(s);
    Run(s, ls, t);
    QuerySound(t, k);
    KeepIncreasing(t.job.log, k);
    forall r ensures r in Query(t, k) <==> r in Keep(t.job.log, k) {
      QueryElems(t, k, r);
      if r in t.job.log { DeliveredIsWritten(t, r); }
    }
    IncreasingUnique(Query(t, k), Keep(t.job.log, k));
  }

  lemma DeliveredIsWritten(t: Sys, r: Rec)
    requires Inv(t) && t.h.failed == 0 && t.job.pend == [] && r in t.job.log
    requires forall q :: LineItem(t.job.id, q) !in t.h.lost
    requires forall q :: LineItem(t.job.id, q) !in t.w.batch + t.w.ch
    ensures r in Mine(Writes(t.h.ops), t.job.id)
  {
    assert multiset(PendRecs(t.job.pend)) == multiset{};
    assert r in multiset(t.job.log) && r in multiset(t.job.offered);
    var item := LineItem(t.job.id, r);
    assert item in Held(t);
    assert item !in t.w.batch && item !in t.w.ch;
  }

  // ----- pages stay put -----

  /** A page of an exact read, with a start that is not negative and a positive end inside
      the history, keeps its lines in every later exact read. */
  lemma PageStable(s0: Sys, q: Sys, a: Sys, l0: seq<Label>, l1: seq<Label>, k: int, start: int, end: int)
    requires Reached(s0, q, a, a, l0, l1, [])
    requires ReadAcross(q, q, q, k) == Keep(q.job.log, k) && ReadAcross(a, a, a, k) == Keep(a.job.log, k)
    requires |ReadAcross(a, a, a, k)| < TWO31
    requires 0 <= start <= end <= |ReadAcross(q, q, q, k)| && end > 0
    ensures |ReadAcross(q, q, q, k)| < TWO31
    ensures Page(ReadAcross(a, a, a, k), start, end) == Page(ReadAcross(q, q, q, k), start, end)
  {
    ReachedInv(s0, q, a, a, l0, l1, []);
    KeepPrefix(q.job.log, a.job.log, k);
    var was, now := Keep(q.job.log, k), Keep(a.job.log, k);
    SliceOfPrefix(was, now, start, end);
    PageIsSlice(was, start, end);
    PageIsSlice(now, start, end);
  }

  lemma SliceOfPrefix(p: seq<Rec>, whole: seq<Rec>, start: nat, end: nat)
    requires p <= whole && start <= end <= |p|
    ensures whole[start..end] == p[start..end]
  {
    assert p == whole[..|p|];
  }
}
