/** Runs showing that each condition on an exact read is needed. */
module Witnesses {
  import opened Options
  import opened Recs
  import opened LineSpec
  import opened Merge
  import opened Listing
  import opened StoreSpec
  import opened Pipeline
  import opened Persistence
  import opened Reading
  import opened Watchers

  const A: Text := [97, LF]
  const B: Text := [98, LF]

  function Fresh0(max: nat): Sys {
    var db := Db(map["j" := Listing.Row("run", Running, 0, 1, 0)], map[]);
    Sys(Job("j", max, Buf([], [], 0), Buf([], [], 0), 0, [], [], []),
        Hub([], [], Free, Working, Running, 0, 0),
        Writer([], [], None, db, 0), History(db, [], [], [], 0))
  }

  lemma OneByteLine(c: byte)
    requires c != CR && c != LF
    ensures Completed([], [c, LF]) == [[c]] && Partial([], [c, LF]) == []
  {
    FeedByte([], [], c);
    FeedByte([], [c], LF);
    assert [] + [c] == [c] && [c] + [LF] == [c, LF];
  }

  /** What completing a one-byte line does to a job whose two partial lines are empty. */
  lemma ChunkOne(s: Sys, k: int, call: int, c: byte)
    requires k in {STDOUT, STDERR} && Ring(s.job, k).cur == [] && c != CR && c != LF
    ensures var t := Next(s, Chunk(k, call, [c, LF]));
            && t.job.log == s.job.log + [Rec(s.job.ctr + 1, k, [c])]
            && t.job.pend == s.job.pend + [Pend(call, Rec(s.job.ctr + 1, k, [c]), false)]
            && t.job.ctr == s.job.ctr + 1 && Ring(t.job, k).cur == []
            && t.hub == s.hub && t.w == s.w && t.h == s.h
            && t.job.id == s.job.id && t.job.max == s.job.max && t.job.offered == s.job.offered
            && (k == STDERR ==> t.job.out == s.job.out) && (k == STDOUT ==> t.job.err == s.job.err)
  {
    OneByteLine(c);
    assert Number([[c]], k, s.job.ctr) == [Rec(s.job.ctr + 1, k, [c])];
    assert Emit(s.job, k, call, [[c]], []).pend == s.job.pend + [Pend(call, Rec(s.job.ctr + 1, k, [c]), false)];
  }

  /** The two halves of the i-th pending line's callback, with an empty queue. */
  lemma CallBack(u: Sys, i: nat) returns (a: Sys, b: Sys)
    requires Due(u.job, i) && !u.job.pend[i].published && u.hub.mid.Free? && u.hub.subs == [] && u.w.ch == []
    ensures Enabled(u, Publish(i)) && a == Next(u, Publish(i))
    ensures Enabled(a, Enqueue(i)) && b == Next(a, Enqueue(i))
    ensures b.job == u.job.(pend := u.job.pend[..i] + u.job.pend[i + 1..], offered := u.job.offered + [u.job.pend[i].rec])
    ensures b.w == u.w.(ch := [LineItem(u.job.id, u.job.pend[i].rec)])
    ensures b.h == u.h.(accepted := u.h.accepted + [LineItem(u.job.id, u.job.pend[i].rec)])
    ensures |b.hub.watches| == |u.hub.watches| && b.hub.subs == [] && b.hub.mid.Free?
  {
    a := Next(u, Publish(i));
    b := Next(a, Enqueue(i));
    assert b.job.pend == u.job.pend[..i] + u.job.pend[i + 1..];
  }

  /** The writer takes the one item of the queue and flushes it. */
  lemma TakeAndStore(b: Sys, item: Item) returns (c: Sys, t: Sys)
    requires b.w.ch == [item] && b.w.batch == [] && b.w.hand.None? && item.LineItem?
    ensures Enabled(b, Take) && c == Next(b, Take)
    ensures Enabled(c, Store(1)) && t == Next(c, Store(1))
    ensures t.job == b.job && t.hub == b.hub
    ensures t.w == b.w.(ch := [], db := Put(b.w.db, item)) && t.h == b.h.(ops := b.h.ops + [Wrote(item)])
  {
    c := Next(b, Take);
    assert c.w == b.w.(ch := [], batch := [item]);
    t := Next(c, Store(1));
    assert [item][..1] == [item] && AsOps([item]) == [Wrote(item)];
    PutSnoc(b.w.db, [], item);
    assert [] + [item] == [item];
  }

  /** The steps that carry the callback of the i-th pending line into the table, when
      nothing is queued before it. */
  lemma Persist(s: Sys, i: nat, path: seq<Label>, u: Sys) returns (ls: seq<Label>, t: Sys)
    requires Path(s, path, u)
    requires Due(u.job, i) && !u.job.pend[i].published && u.hub.mid.Free? && u.hub.subs == []
    requires u.w.ch == [] && u.w.batch == [] && u.w.hand.None?
    ensures Path(s, path + ls, t)
    ensures t.job == u.job.(pend := u.job.pend[..i] + u.job.pend[i + 1..], offered := u.job.offered + [u.job.pend[i].rec])
    ensures t.w == u.w.(db := Put(u.w.db, LineItem(u.job.id, u.job.pend[i].rec)))
    ensures t.h == u.h.(accepted := u.h.accepted + [LineItem(u.job.id, u.job.pend[i].rec)],
                        ops := u.h.ops + [Wrote(LineItem(u.job.id, u.job.pend[i].rec))])
    ensures |t.hub.watches| == |u.hub.watches| && t.hub.subs == [] && t.hub.mid.Free?
  {
    var a, b, c;
    a, b := CallBack(u, i);
    c, t := TakeAndStore(b, LineItem(u.job.id, u.job.pend[i].rec));
    PathSnoc(s, path, u, Publish(i));
    PathSnoc(s, path + [Publish(i)], a, Enqueue(i));
    PathSnoc(s, path + [Publish(i)] + [Enqueue(i)], b, Take);
    PathSnoc(s, path + [Publish(i)] + [Enqueue(i)] + [Take], c, Store(1));
    ls := [Publish(i), Enqueue(i), Take, Store(1)];
    assert path + ls == path + [Publish(i)] + [Enqueue(i)] + [Take] + [Store(1)];
  }

  /** Line 1 on stdout, then line 2 on stderr, both callbacks still due. */
  lemma LinePerStream() returns (s0: Sys, ls: seq<Label>, b: Sys)
    ensures Initial(s0) && Path(s0, ls, b)
    ensures b.job.log == [Rec(1, STDOUT, [97]), Rec(2, STDERR, [98])]
    ensures b.job.pend == [Pend(1, b.job.log[0], false), Pend(2, b.job.log[1], false)]
    ensures b.hub == s0.hub && b.w == s0.w && b.h == s0.h && b.job.id == "j" && b.job.max == 10
    ensures s0 == Fresh0(10)
  {
    s0 := Fresh0(10);
    ChunkOne(s0, STDOUT, 1, 97);
    var a := Next(s0, Chunk(STDOUT, 1, A));
    ChunkOne(a, STDERR, 2, 98);
    b := Next(a, Chunk(STDERR, 2, B));
    PathSnoc(s0, [], s0, Chunk(STDOUT, 1, A));
    PathSnoc(s0, [] + [Chunk(STDOUT, 1, A)], a, Chunk(STDERR, 2, B));
    ls := [] + [Chunk(STDOUT, 1, A)] + [Chunk(STDERR, 2, B)];
  }

  /** A stored line 2 hides a line 1 that is only in a ring. */
  lemma Hides(t: Sys, one: Rec, two: Rec)
    requires two.seqno > one.seqno
    requires Stored(t.w.db, t.job.id, two) && !Stored(t.w.db, t.job.id, one)
    ensures one !in ReadAcross(t, t, t, -1)
  {
    QueryExact(t.w.db, t.job.id, -1);
    assert two in Query(t, -1);
    MergedElems(Query(t, -1), t.job.out.recs, t.job.err.recs, -1, one);
  }

  lemma NothingEvicted(j: Job)
    requires JobInv(j) && |j.log| <= j.max
    ensures j.out.dropped == 0 && j.err.dropped == 0
  {
    KeepShorter(j.log, STDOUT);
    KeepShorter(j.log, STDERR);
  }

  lemma {:induction false} KeepShorter(rs: seq<Rec>, k: int)
    ensures |Keep(rs, k)| <= |rs|
  {
    if rs != [] { KeepShorter(rs[..|rs| - 1], k); }
  }

  /** Out of order: stdout completes line 1, stderr completes line 2, and line 2's
      callback gets through first. Nothing is dropped, refused or evicted, and the read is
      one step; yet line 1 is missing, because the stored line 2 hides it. */
  lemma HiddenLine() returns (s0: Sys, ls: seq<Label>, t: Sys)
    ensures Initial(s0) && Path(s0, ls, t) && Clean(t) && t.h.lost == []
    ensures t.job.out.dropped == 0 && t.job.err.dropped == 0
    ensures t.job.log == [Rec(1, STDOUT, [97]), Rec(2, STDERR, [98])]
    ensures Rec(1, STDOUT, [97]) !in ReadAcross(t, t, t, -1)
  {
    var first, b, more;
    s0, first, b := LinePerStream();
    Start(s0);
    Run(s0, first, b);
    more, t := Persist(s0, 1, first, b);
    ls := first + more;
    Run(s0, ls, t);
    NothingEvicted(t.job);
    assert t.h.ops[..0] == [];
    Hides(t, Rec(1, STDOUT, [97]), Rec(2, STDERR, [98]));
  }

  /** Evicted between query and copy: with a ring of one line, everything in order and
      nothing refused, line 1 is stored and then evicted after the query and before the
      ring is copied. Every evicted line is in the table when the ring is copied, yet the
      read misses line 1. */
  lemma EvictedBetween() returns (s0: Sys, l0: seq<Label>, q: Sys, l1: seq<Label>, a: Sys)
    ensures Reached(s0, q, a, a, l0, l1, []) && Clean(a) && InOrder(q, STDOUT) && a.h.lost == []
    ensures a.job.log == [Rec(1, STDOUT, [97]), Rec(2, STDOUT, [98])] && a.job.out.dropped == 1
    ensures Stored(a.w.db, a.job.id, Rec(1, STDOUT, [97]))
    ensures ReadAcross(q, a, a, STDOUT) != Keep(a.job.log, STDOUT)
  {
    s0, l0, q := OneLine1();
    l1, a := StoreThenEvict(q);
    ReachedInv(s0, q, a, a, l0, l1, []);
    OneOfTwo(a);
    QueryNone(q);
    ReadOneExact(s0, q, a, a, l0, l1, [], STDOUT);
  }

  lemma StoreThenEvict(q: Sys) returns (ls: seq<Label>, a: Sys)
    requires q.job.log == [Rec(1, STDOUT, [97])] && q.job.ctr == 1 && q.job.out.cur == []
    requires q.job.pend == [Pend(1, q.job.log[0], false)] && q.job.id == "j"
    requires q.hub == Fresh0(1).hub && q.w == Fresh0(1).w && q.h == Fresh0(1).h
    ensures Path(q, ls, a) && a.job.log == [Rec(1, STDOUT, [97]), Rec(2, STDOUT, [98])]
    ensures Stored(a.w.db, a.job.id, Rec(1, STDOUT, [97])) && a.h.lost == [] && Clean(a) && a.job.max == q.job.max
  {
    var more, p := Persist(q, 0, [], q);
    ChunkOne(p, STDOUT, 2, 98);
    a := Next(p, Chunk(STDOUT, 2, B));
    PathSnoc(q, [] + more, p, Chunk(STDOUT, 2, B));
    ls := [] + more + [Chunk(STDOUT, 2, B)];
    assert a.h.ops[..0] == [];
  }

  lemma OneLine1() returns (s0: Sys, ls: seq<Label>, q: Sys)
    ensures Initial(s0) && Path(s0, ls, q)
    ensures q.job.log == [Rec(1, STDOUT, [97])] && q.job.ctr == 1 && q.job.out.cur == []
    ensures q.job.pend == [Pend(1, q.job.log[0], false)]
    ensures q.hub == s0.hub && q.w == s0.w && q.h == s0.h && q.job.id == "j" && q.job.max == 1
    ensures s0 == Fresh0(1)
  {
    s0 := Fresh0(1);
    ChunkOne(s0, STDOUT, 1, 97);
    q := Next(s0, Chunk(STDOUT, 1, A));
    PathSnoc(s0, [], s0, Chunk(STDOUT, 1, A));
    ls := [] + [Chunk(STDOUT, 1, A)];
  }

  lemma OneOfTwo(a: Sys)
    requires JobInv(a.job) && a.job.max == 1
    requires a.job.log == [Rec(1, STDOUT, [97]), Rec(2, STDOUT, [98])]
    ensures a.job.out.dropped == 1
  {
    KeepAll(a.job.log, STDOUT);
  }

  lemma QueryNone(q: Sys)
    requires Inv(q) && q.h.ops == [] && q.h.accepted == [] && q.h.failed == 0
    ensures Clean(q) && InOrder(q, STDOUT) && Query(q, STDOUT) == []
  {
    QueryIsPrefix(q, STDOUT);
  }

  /** Torn copy: a stdout line and then a stderr line are completed between the copy of
      the stdout ring and the copy of the stderr ring. The read has line 2 without line 1. */
  lemma TornCopy() returns (s0: Sys, ls: seq<Label>, b: Sys)
    ensures Reached(s0, s0, s0, b, [], [], ls) && Clean(s0) && InOrder(s0, -1)
    ensures b.job.log == [Rec(1, STDOUT, [97]), Rec(2, STDERR, [98])]
    ensures b.job.out.dropped == 0 && b.job.err.dropped == 0
    ensures ReadAcross(s0, s0, b, -1) == [Rec(2, STDERR, [98])]
  {
    s0, ls, b := LinePerStream();
    ReachedInv(s0, s0, s0, b, [], [], ls);
    NothingEvicted(b.job);
    RingFacts(b.job, STDERR);
    QueryIsPrefix(s0, -1);
    StderrOnly(b.job.log);
    AboveAll(b.job.err.recs);
    assert [Rec(2, STDERR, [98])][1..] == [];
  }

  lemma StderrOnly(log: seq<Rec>)
    requires log == [Rec(1, STDOUT, [97]), Rec(2, STDERR, [98])]
    ensures Keep(log, STDERR) == [Rec(2, STDERR, [98])]
  {
    KeepFired([Rec(1, STDOUT, [97])], [Rec(2, STDERR, [98])], STDERR, STDOUT);
    KeepNone([Rec(1, STDOUT, [97])], STDERR);
    assert log == [Rec(1, STDOUT, [97])] + [Rec(2, STDERR, [98])];
  }

  /** A subscription that lands after the subscriptions were closed and before the done
      signal is given a channel, and no run from there ever closes it. */
  lemma LateSubscriber() returns (s0: Sys, ls: seq<Label>, u: Sys)
    ensures Initial(s0) && Path(s0, ls, u)
    ensures u.hub.phase == SubsClosed && u.hub.subs == [0]
    ensures forall more, v :: Path(u, more, v) ==> 0 < |v.hub.watches| && !v.hub.watches[0].closed
  {
    s0 := Fresh0(10);
    var first, c := Closed(s0);
    ls, u := SubscribeNow(s0, first, c);
    HubStart(s0);
    HubRun(s0, ls, u);
    forall more, v | Path(u, more, v) ensures 0 < |v.hub.watches| && !v.hub.watches[0].closed {
      LateChannelStaysOpen(u, more, v, 0);
    }
  }

  lemma Closed(s: Sys) returns (ls: seq<Label>, t: Sys)
    requires s.hub == Fresh0(10).hub
    ensures Path(s, ls, t)
    ensures t.hub.phase == SubsClosed && t.hub.subs == [] && t.hub.watches == [] && t.hub.mid.Free?
  {
    var l := Settle(false, false, 0, 5);
    t := Next(Next(Next(s, l), Announce), CloseSubs);
    PathSnoc(s, [], s, l);
    PathSnoc(s, [] + [l], Next(s, l), Announce);
    PathSnoc(s, [] + [l] + [Announce], Next(Next(s, l), Announce), CloseSubs);
    ls := [] + [l] + [Announce] + [CloseSubs];
  }

  /** The three steps of a subscription. */
  lemma SubscribeNow(s0: Sys, path: seq<Label>, s: Sys) returns (ls: seq<Label>, t: Sys)
    requires Path(s0, path, s) && s.hub.mid.Free? && s.hub.phase != DoneClosed
    ensures Path(s0, ls, t)
    ensures t.hub.phase == s.hub.phase && t.hub.subs == s.hub.subs + [|s.hub.watches|]
  {
    var a := Next(s, CopyOut);
    var b := Next(a, CopyErr);
    t := Next(b, Register);
    PathSnoc(s0, path, s, CopyOut);
    PathSnoc(s0, path + [CopyOut], a, CopyErr);
    PathSnoc(s0, path + [CopyOut] + [CopyErr], b, Register);
    ls := path + [CopyOut] + [CopyErr] + [Register];
  }

  /** The end of a job and its finish record's entry into the queue. */
  lemma EndsQueued(s0: Sys) returns (ls: seq<Label>, t: Sys)
    requires s0 == Fresh0(10)
    ensures Path(s0, ls, t) && t.w.db == s0.w.db
    ensures t.hub.state == Done && t.hub.exitCode == 0 && t.hub.finishedAt == 5
  {
    var l := Settle(false, false, 0, 5);
    t := Next(Next(s0, l), Announce);
    PathSnoc(s0, [], s0, l);
    PathSnoc(s0, [] + [l], Next(s0, l), Announce);
    ls := [] + [l] + [Announce];
  }

  /** A job whose finish record still waits in the queue: memory says done, the stored row
      says running, and every listing of the two shows it running. */
  lemma ListedRunning() returns (s0: Sys, ls: seq<Label>, t: Sys)
    ensures Initial(s0) && Path(s0, ls, t)
    ensures t.hub.state == Done && "j" in t.w.db.rows && t.w.db.rows["j"].state == Running
    ensures var mem := map["j" := Listing.Row("run", t.hub.state, t.hub.exitCode, 1, t.hub.finishedAt)];
            SameStarts(t.w.db.rows, mem) &&
            forall out, limit: nat :: limit > 0 && TopOfUnion(out, t.w.db.rows, mem, limit) ==> out == [JobRow("j", t.w.db.rows["j"])]
  {
    s0 := Fresh0(10);
    ls, t := EndsQueued(s0);
    StaleRow(t.w.db.rows, map["j" := Listing.Row("run", Done, 0, 1, 5)]);
  }

  lemma StaleRow(rows: map<JobId, Row>, mem: map<JobId, Row>)
    requires rows.Keys == {"j"} && mem.Keys == {"j"}
    ensures forall out, limit: nat :: limit > 0 && TopOfUnion(out, rows, mem, limit) ==> out == [JobRow("j", rows["j"])]
  {
    forall out, limit: nat | limit > 0 && TopOfUnion(out, rows, mem, limit) ensures out == [JobRow("j", rows["j"])] {
      OnlyRow(out, rows, mem, limit);
    }
  }

  lemma OnlyRow(out: seq<JobRow>, rows: map<JobId, Row>, mem: map<JobId, Row>, limit: nat)
    requires limit > 0 && TopOfUnion(out, rows, mem, limit)
    requires rows.Keys == {"j"} && mem.Keys == {"j"}
    ensures out == [JobRow("j", rows["j"])]
  {
    assert rows.Keys + mem.Keys == {"j"};
    assert |rows| == |rows.Keys|;
    assert out[0] in out;
  }
}
