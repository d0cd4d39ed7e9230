/** What the writer's queue, batch and tables hold along every run. */
module Persistence {
  import opened Recs
  import opened Merge
  import opened Listing
  import opened StoreSpec
  import opened Pipeline

  function InHand(w: Writer): seq<Item> {
    if w.hand.Some? then [w.hand.value] else []
  }

  /** Everything taken from the environment, in the order the database and the writer
      hold it: written, batched, in hand, still queued. */
  function Held(s: Sys): seq<Item> {
    Writes(s.h.ops) + s.w.batch + InHand(s.w) + s.w.ch
  }

  ghost predicate WriterInv(s: Sys) {
    && |s.w.ch| <= CHANNEL_CAP
    && (forall b :: b in s.w.batch ==> b.LineItem?)
    && (s.w.hand.Some? ==> s.w.hand.value.FinItem?)
    && s.w.db == Replay(s.h.start, s.h.ops)
    && (s.h.failed == 0 ==> Held(s) == s.h.accepted)
    && (forall item :: item in Held(s) ==> item in s.h.accepted)
  }

  // ----- replaying writes -----

  lemma OpsSnoc(db: Db, ops: seq<Op>, op: Op)
    ensures Writes(ops + [op]) == Writes(ops) + if op.Wrote? then [op.item] else []
    ensures Replay(db, ops + [op]) == Apply(Replay(db, ops), op)
  {
    assert (ops + [op])[..|ops|] == ops;
  }

  lemma {:induction false} OpsAppend(db: Db, ops: seq<Op>, items: seq<Item>)
    ensures Writes(ops + AsOps(items)) == Writes(ops) + items
    ensures Replay(db, ops + AsOps(items)) == PutAll(Replay(db, ops), items)
  {
    if items == [] {
      assert ops + AsOps(items) == ops;
    } else {
      var front, last := items[..|items| - 1], items[|items| - 1];
      assert items == front + [last];
      AsOpsSnoc(front, last);
      Regrouped(ops, AsOps(front), Wrote(last));
      OpsAppend(db, ops, front);
      OpsSnoc(db, ops + AsOps(front), Wrote(last));
    }
  }

  lemma AsOpsSnoc(items: seq<Item>, item: Item)
    ensures AsOps(items + [item]) == AsOps(items) + [Wrote(item)]
  {
  }

  lemma Regrouped(ops: seq<Op>, more: seq<Op>, op: Op)
    ensures ops + (more + [op]) == ops + more + [op]
  {
  }

  // ----- the writer's steps conserve items -----

  lemma OfferKeeps(s: Sys, item: Item)
    requires WriterInv(s)
    ensures WriterInv(OfferAll(s, item))
  {
    if |s.w.ch| < CHANNEL_CAP {
      assert Held(OfferAll(s, item)) == Held(s) + [item];
    } else {
      assert Held(OfferAll(s, item)) == Held(s);
    }
  }

  lemma TakeKeeps(s: Sys)
    requires WriterInv(s) && CanReceive(s.w)
    ensures WriterInv(Next(s, Take))
  {
    assert s.w.ch == [s.w.ch[0]] + s.w.ch[1..];
    assert Held(Next(s, Take)) == Held(s);
  }

  lemma StoreKeeps(s: Sys, n: nat)
    requires WriterInv(s) && n <= |s.w.batch|
    ensures WriterInv(Next(s, Store(n)))
  {
    var t := Next(s, Store(n));
    OpsAppend(s.h.start, s.h.ops, s.w.batch[..n]);
    assert Held(t) == Writes(s.h.ops) + s.w.batch[..n] + InHand(s.w) + s.w.ch;
    assert n == |s.w.batch| ==> s.w.batch[..n] == s.w.batch;
    forall item | item in Held(t) ensures item in s.h.accepted {
      assert item in s.w.batch[..n] ==> item in s.w.batch;
      assert item in Held(s);
    }
  }

  lemma FinishKeeps(s: Sys, ok: bool)
    requires WriterInv(s) && CanFinalize(s.w)
    ensures WriterInv(Next(s, Finish(ok)))
  {
    var t := Next(s, Finish(ok));
    OpsSnoc(s.h.start, s.h.ops, Wrote(s.w.hand.value));
    assert Held(s) == Writes(s.h.ops) + [s.w.hand.value] + s.w.ch;
    assert Held(t) == Writes(t.h.ops) + s.w.ch;
  }

  lemma TableKeeps(s: Sys, op: Op)
    requires WriterInv(s) && !op.Wrote?
    ensures WriterInv(s.(w := s.w.(db := Apply(s.w.db, op)), h := s.h.(ops := s.h.ops + [op])))
  {
    OpsSnoc(s.h.start, s.h.ops, op);
    assert Writes(s.h.ops + [op]) == Writes(s.h.ops);
  }

  lemma WriterStep(s: Sys, l: Label)
    requires WriterInv(s) && Enabled(s, l)
    ensures WriterInv(Next(s, l))
  {
    match l
    case Enqueue(i) =>
      var r := s.job.pend[i].rec;
      OfferKeeps(s.(job := s.job.(pend := s.job.pend[..i] + s.job.pend[i + 1..], offered := s.job.offered + [r])),
                 LineItem(s.job.id, r));
    case OtherItem(item) => OfferKeeps(s, item);
    case OtherRow(other, command, startedAt) => TableKeeps(s, Inserted(other, command, startedAt));
    case Take => TakeKeeps(s);
    case Store(n) => StoreKeeps(s, n);
    case Finish(ok) => FinishKeeps(s, ok);
    case Retain(cutoff) => TableKeeps(s, Trim(cutoff));
    case Announce =>
      OfferKeeps(s.(hub := s.hub.(phase := Announced)),
                 FinItem(s.job.id, Fin(s.hub.state, s.hub.exitCode, s.hub.finishedAt)));
    case _ =>
  }

  lemma WriterStart(s: Sys)
    requires Initial(s)
    ensures WriterInv(s)
  {
    assert Held(s) == [] + s.w.batch + [] + s.w.ch;
  }

  // ----- this job's share of the queue -----

  /** This job's lines among some items, in order. */
  function Mine(items: seq<Item>, id: JobId): (rs: seq<Rec>)
    ensures forall r :: r in rs <==> LineItem(id, r) in items
  {
    if items == [] then []
    else
      assert items == items[..|items| - 1] + [items[|items| - 1]];
      var before, last := Mine(items[..|items| - 1], id), items[|items| - 1];
      if last.LineItem? && last.job == id then before + [last.rec] else before
  }

  lemma {:induction false} MineAppend(a: seq<Item>, b: seq<Item>, id: JobId)
    ensures Mine(a + b, id) == Mine(a, id) + Mine(b, id)
  {
    if b == [] {
      assert a + b == a;
    } else {
      MineAppend(a, b[..|b| - 1], id);
      assert (a + b)[..|a + b| - 1] == a + b[..|b| - 1];
    }
  }

  lemma MinePrefix(a: seq<Item>, b: seq<Item>, id: JobId)
    requires a <= b
    ensures Mine(a, id) <= Mine(b, id)
  {
    assert b == a + b[|a|..];
    MineAppend(a, b[|a|..], id);
  }

  /** The queue knows about this job only what its callbacks and its goroutine said. */
  ghost predicate LinkInv(s: Sys) {
    && (forall item :: item in s.h.accepted + s.h.lost && item.job == s.job.id ==>
          if item.LineItem? then item.rec in s.job.offered
          else s.hub.phase !in {Working, Settled} && item.fin == Fin(s.hub.state, s.hub.exitCode, s.hub.finishedAt))
    && (forall r :: r in s.job.offered ==> LineItem(s.job.id, r) in s.h.accepted || LineItem(s.job.id, r) in s.h.lost)
    && (forall k :: k in s.h.start.lines ==> k.job != s.job.id)
    && (forall op :: op in s.h.ops && op.Inserted? ==> op.job != s.job.id)
  }

  /** One more item offered, taken or not, that says only what is known. */
  lemma LinkOffer(s: Sys, item: Item)
    requires LinkOffered(s, item)
    ensures LinkInv(OfferAll(s, item))
  {
    var t := OfferAll(s, item);
    forall x | x in t.h.accepted + t.h.lost ensures x in s.h.accepted + s.h.lost || x == item {
    }
  }

  /** The state before the item joins the queue: the item is the one thing still missing. */
  ghost predicate LinkOffered(s: Sys, item: Item) {
    && (forall x :: (x in s.h.accepted + s.h.lost || x == item) && x.job == s.job.id ==>
          if x.LineItem? then x.rec in s.job.offered
          else s.hub.phase !in {Working, Settled} && x.fin == Fin(s.hub.state, s.hub.exitCode, s.hub.finishedAt))
    && (forall r :: r in s.job.offered ==> LineItem(s.job.id, r) in s.h.accepted || LineItem(s.job.id, r) in s.h.lost
                                           || LineItem(s.job.id, r) == item)
    && (forall k :: k in s.h.start.lines ==> k.job != s.job.id)
    && (forall op :: op in s.h.ops && op.Inserted? ==> op.job != s.job.id)
  }

  lemma LinkStep(s: Sys, l: Label)
    requires LinkInv(s) && Enabled(s, l)
    ensures LinkInv(Next(s, l))
  {
    match l
    case Enqueue(i) =>
      var r := s.job.pend[i].rec;
      LinkOffer(s.(job := s.job.(pend := s.job.pend[..i] + s.job.pend[i + 1..], offered := s.job.offered + [r])),
                LineItem(s.job.id, r));
    case OtherItem(item) => LinkOffer(s, item);
    case Announce =>
      LinkOffer(s.(hub := s.hub.(phase := Announced)),
                FinItem(s.job.id, Fin(s.hub.state, s.hub.exitCode, s.hub.finishedAt)));
    case _ => LinkOther(s, l);
  }

  lemma LinkOther(s: Sys, l: Label)
    requires LinkInv(s) && Enabled(s, l) && !l.Enqueue? && !l.OtherItem? && !l.Announce?
    ensures LinkInv(Next(s, l))
  {
  }

  // ----- whole runs -----

  ghost predicate Inv(s: Sys) {
    JobInv(s.job) && WriterInv(s) && LinkInv(s)
  }

  lemma Start(s: Sys)
    requires Initial(s)
    ensures Inv(s)
  {
    WriterStart(s);
  }

  lemma Step(s: Sys, l: Label)
    requires Inv(s) && Enabled(s, l)
    ensures Inv(Next(s, l)) && s.job.log <= Next(s, l).job.log
    ensures s.job.id == Next(s, l).job.id && s.job.max == Next(s, l).job.max && s.h.start == Next(s, l).h.start
  {
    JobStep(s, l);
    WriterStep(s, l);
    LinkStep(s, l);
  }

  lemma {:induction false} Run(s: Sys, ls: seq<Label>, t: Sys)
    requires Inv(s) && Path(s, ls, t)
    ensures Inv(t) && s.job.log <= t.job.log
    ensures s.job.id == t.job.id && s.job.max == t.job.max && s.h.start == t.h.start
    decreases |ls|
  {
    if ls != [] {
      Step(s, ls[0]);
      Run(Next(s, ls[0]), ls[1..], t);
    }
  }

  /** Shared numbering: whatever the interleaving of the two buffers, the numbers given
      out are exactly 1, 2, ..., each ring strictly increases, and sorting the two
      streams' histories together gives back the order of completion. */
  lemma SharedNumbering(s: Sys, ls: seq<Label>, t: Sys)
    requires Initial(s) && Path(s, ls, t)
    ensures |t.job.log| == t.job.ctr && forall i :: 0 <= i < t.job.ctr ==> t.job.log[i].seqno == i + 1
    ensures Increasing(t.job.out.recs) && Increasing(t.job.err.recs)
    ensures SortBySeq(Keep(t.job.log, STDOUT) + Keep(t.job.log, STDERR)) == t.job.log
  {
    Start(s);
    Run(s, ls, t);
    StreamsInterleave(t.job.log);
    RingFacts(t.job, STDOUT);
    RingFacts(t.job, STDERR);
  }

  /** Writer conservation: while the database refuses nothing, what was accepted is, in
      order, what was written, batched, in hand and queued, and the tables are exactly
      the replay of the part written. A crash now leaves that prefix. */
  lemma WriterConserves(s: Sys, ls: seq<Label>, t: Sys)
    requires Initial(s) && Path(s, ls, t) && t.h.failed == 0
    ensures t.h.accepted == Writes(t.h.ops) + t.w.batch + InHand(t.w) + t.w.ch
    ensures Writes(t.h.ops) <= t.h.accepted
    ensures t.w.db == Replay(s.w.db, t.h.ops)
  {
    Start(s);
    Run(s, ls, t);
  }

  /** Booting over whatever a crash left: no row still runs, rows already terminal and
      all lines are untouched. */
  lemma RecoveredClean(db: Db, now: int)
    ensures var up := Recovered(db, now);
            && up.rows.Keys == db.rows.Keys && up.lines == db.lines
            && (forall j :: j in up.rows ==> up.rows[j].state != Running)
            && (forall j :: j in db.rows && db.rows[j].state != Running ==> up.rows[j] == db.rows[j])
            && (forall j :: j in db.rows && db.rows[j].state == Running ==>
                  up.rows[j] == Listing.Row(db.rows[j].command, Failed, 137, db.rows[j].startedAt, now))
            && Recovered(up, now) == up
  {
  }

  // ----- lines in the table -----

  /** Every retention pass so far left the job its row, so none deleted its lines. */
  ghost predicate Spared(db: Db, ops: seq<Op>, id: JobId) {
    ops == [] ||
    (Spared(db, ops[..|ops| - 1], id) && (ops[|ops| - 1].Trim? ==> id in Replay(db, ops).rows))
  }

  /** Two items never claim the same number for different lines of the job. */
  ghost predicate Agree(items: seq<Item>, id: JobId) {
    forall a, b :: LineItem(id, a) in items && LineItem(id, b) in items && a.seqno == b.seqno ==> a == b
  }

  lemma {:induction false} StoredWasWritten(db: Db, ops: seq<Op>, id: JobId, r: Rec)
    requires forall k :: k in db.lines ==> k.job != id
    requires Stored(Replay(db, ops), id, r)
    ensures LineItem(id, r) in Writes(ops)
  {
    if ops != [] {
      var front, last := ops[..|ops| - 1], ops[|ops| - 1];
      if !(last.Wrote? && last.item == LineItem(id, r)) {
        StoredWasWritten(db, front, id, r);
      }
    }
  }

  lemma {:induction false} WrittenIsStored(db: Db, ops: seq<Op>, id: JobId, r: Rec)
    requires Spared(db, ops, id) && Agree(Writes(ops), id)
    requires LineItem(id, r) in Writes(ops)
    ensures Stored(Replay(db, ops), id, r)
  {
    var front, last := ops[..|ops| - 1], ops[|ops| - 1];
    assert forall item :: item in Writes(front) ==> item in Writes(ops);
    if LineItem(id, r) in Writes(front) {
      WrittenIsStored(db, front, id, r);
      if last.Wrote? && last.item.LineItem? && last.item.job == id && last.item.rec.seqno == r.seqno {
        assert last.item == LineItem(id, last.item.rec) && last.item in Writes(ops);
      }
    }
  }

  lemma AgreeOfLog(s: Sys)
    requires Inv(s)
    ensures Agree(Writes(s.h.ops), s.job.id)
    ensures forall r :: LineItem(s.job.id, r) in s.h.accepted ==> r in s.job.log
  {
    forall r | LineItem(s.job.id, r) in s.h.accepted ensures r in s.job.log {
      assert LineItem(s.job.id, r) in s.h.accepted + s.h.lost;
      assert r in multiset(s.job.offered);
      assert r in multiset(s.job.log);
    }
    forall a, b | LineItem(s.job.id, a) in Writes(s.h.ops) && LineItem(s.job.id, b) in Writes(s.h.ops) && a.seqno == b.seqno
      ensures a == b
    {
      assert LineItem(s.job.id, a) in Held(s) && LineItem(s.job.id, b) in Held(s);
      NumberDetermines(s.job.log, a, b);
    }
  }

  /** The finish barrier: once a job's finish record has reached the database, so has
      every line of the job that was accepted before it. */
  lemma FinishBarrier(s: Sys, ls: seq<Label>, t: Sys, i: nat, j: nat)
    requires Initial(s) && Path(s, ls, t) && t.h.failed == 0 && Spared(s.w.db, t.h.ops, t.job.id)
    requires i < j < |Writes(t.h.ops)| && j < |t.h.accepted|
    requires t.h.accepted[j].FinItem?
    requires t.h.accepted[i].LineItem? && t.h.accepted[i].job == t.job.id
    ensures Stored(t.w.db, t.job.id, t.h.accepted[i].rec)
  {
    Start(s);
    Run(s, ls, t);
    AgreeOfLog(t);
    assert t.h.accepted[i] == Held(t)[i] == Writes(t.h.ops)[i];
    WrittenIsStored(s.w.db, t.h.ops, t.job.id, t.h.accepted[i].rec);
  }

  lemma {:induction false} TerminalRowHasRecord(db: Db, ops: seq<Op>, id: JobId)
    requires id in db.rows ==> db.rows[id].state == Running
    requires forall op :: op in ops && op.Inserted? ==> op.job != id
    requires id in Replay(db, ops).rows && Replay(db, ops).rows[id].state != Running
    ensures exists item :: item in Writes(ops) && item.FinItem? && item.job == id
  {
    if ops != [] {
      var front, last := ops[..|ops| - 1], ops[|ops| - 1];
      assert forall op :: op in front ==> op in ops;
      assert last in ops;
      if last.Wrote? && last.item.FinItem? && last.item.job == id {
        assert last.item in Writes(ops);
      } else {
        TerminalRowHasRecord(db, front, id);
        assert forall item :: item in Writes(front) ==> item in Writes(ops);
      }
    }
  }

  /** The barrier as a reader sees it: a job's row is terminal only if its finish record
      was accepted and every line of the job accepted before it is in the table. */
  lemma TerminalRowBarrier(s: Sys, ls: seq<Label>, t: Sys) returns (j: nat)
    requires Initial(s) && Path(s, ls, t) && t.h.failed == 0 && Spared(s.w.db, t.h.ops, t.job.id)
    requires s.job.id in s.w.db.rows ==> s.w.db.rows[s.job.id].state == Running
    requires t.job.id in t.w.db.rows && t.w.db.rows[t.job.id].state != Running
    ensures j < |t.h.accepted| && t.h.accepted[j].FinItem? && t.h.accepted[j].job == t.job.id
    ensures forall i :: 0 <= i < j && t.h.accepted[i].LineItem? && t.h.accepted[i].job == t.job.id ==>
              Stored(t.w.db, t.job.id, t.h.accepted[i].rec)
  {
    Start(s);
    Run(s, ls, t);
    TerminalRowHasRecord(s.w.db, t.h.ops, t.job.id);
    var item :| item in Writes(t.h.ops) && item.FinItem? && item.job == t.job.id;
    j :| 0 <= j < |Writes(t.h.ops)| && Writes(t.h.ops)[j] == item;
    assert Held(t)[j] == item;
    forall i | 0 <= i < j && t.h.accepted[i].LineItem? && t.h.accepted[i].job == t.job.id
      ensures Stored(t.w.db, t.job.id, t.h.accepted[i].rec)
    {
      FinishBarrier(s, ls, t, i, j);
    }
  }

  /** What a query returns is always made of completed lines. */
  lemma QuerySound(s: Sys, k: int)
    requires Inv(s)
    ensures Increasing(QueryRecs(s.w.db, s.job.id, k))
    ensures forall r :: r in QueryRecs(s.w.db, s.job.id, k) ==> r in s.job.log && Want(r, k)
  {
    QueryExact(s.w.db, s.job.id, k);
    AgreeOfLog(s);
    forall r | r in QueryRecs(s.w.db, s.job.id, k) ensures r in s.job.log {
      StoredWasWritten(s.h.start, s.h.ops, s.job.id, r);
      assert LineItem(s.job.id, r) in Held(s);
    }
  }

  lemma QueryElems(s: Sys, k: int, r: Rec)
    requires Inv(s) && Spared(s.h.start, s.h.ops, s.job.id)
    ensures r in QueryRecs(s.w.db, s.job.id, k) <==> r in Mine(Writes(s.h.ops), s.job.id) && Want(r, k)
  {
    QueryExact(s.w.db, s.job.id, k);
    AgreeOfLog(s);
    if r in Mine(Writes(s.h.ops), s.job.id) {
      WrittenIsStored(s.h.start, s.h.ops, s.job.id, r);
    }
    if r in QueryRecs(s.w.db, s.job.id, k) {
      StoredWasWritten(s.h.start, s.h.ops, s.job.id, r);
    }
  }

  // ----- the writer's turns are its steps -----

  /** A turn of the writer's loop on a received item is a run of its steps: take; or take and
      store a full batch; or take a finish record, store what is batched, and apply it. So
      everything proved of runs holds of a writer that works turn by turn. */
  lemma TurnIsPath(s: Sys, n: nat, ok: bool) returns (ls: seq<Label>, t: Sys)
    requires CanReceive(s.w)
    ensures Path(s, ls, t) && t.w == Turn(s.w, n, ok) && t.job == s.job && t.hub == s.hub
    ensures exists m :: ls == if s.w.ch[0].FinItem? then [Take, Store(m), Pipeline.Finish(ok)]
                              else if |s.w.batch| + 1 >= WRITE_BATCH_LEN then [Take, Store(m)]
                              else [Take]
  {
    var got := Next(s, Take);
    var m := if n <= |got.w.batch| then n else |got.w.batch|;
    PathSnoc(s, [], s, Take);
    assert [] + [Take] == [Take];
    if s.w.ch[0].FinItem? {
      var flushed := Next(got, Store(m));
      t := Next(flushed, Pipeline.Finish(ok));
      PathSnoc(s, [Take], got, Store(m));
      assert [Take] + [Store(m)] == [Take, Store(m)];
      PathSnoc(s, [Take, Store(m)], flushed, Pipeline.Finish(ok));
      assert [Take, Store(m)] + [Pipeline.Finish(ok)] == [Take, Store(m), Pipeline.Finish(ok)];
      ls := [Take, Store(m), Pipeline.Finish(ok)];
    } else if |s.w.batch| + 1 >= WRITE_BATCH_LEN {
      t := Next(got, Store(m));
      PathSnoc(s, [Take], got, Store(m));
      assert [Take] + [Store(m)] == [Take, Store(m)];
      ls := [Take, Store(m)];
    } else {
      t := got;
      ls := [Take];
    }
  }

  // ----- what is lost is counted -----

  function LinesIn(items: seq<Item>): nat {
    if items == [] then 0
    else LinesIn(items[..|items| - 1]) + if items[|items| - 1].LineItem? then 1 else 0
  }

  lemma OfferCounts(s: Sys, item: Item)
    ensures var t := OfferAll(s, item);
            t.w.dropped - LinesIn(t.h.lost) == s.w.dropped - LinesIn(s.h.lost)
  {
    assert (s.h.lost + [item])[..|s.h.lost|] == s.h.lost;
  }

  lemma CountStep(s: Sys, l: Label)
    requires Enabled(s, l)
    ensures Next(s, l).w.dropped - LinesIn(Next(s, l).h.lost) == s.w.dropped - LinesIn(s.h.lost)
  {
    match l
    case Enqueue(i) =>
      var r := s.job.pend[i].rec;
      OfferCounts(s.(job := s.job.(pend := s.job.pend[..i] + s.job.pend[i + 1..], offered := s.job.offered + [r])),
                  LineItem(s.job.id, r));
    case OtherItem(item) => OfferCounts(s, item);
    case Announce =>
      OfferCounts(s.(hub := s.hub.(phase := Announced)),
                  FinItem(s.job.id, Fin(s.hub.state, s.hub.exitCode, s.hub.finishedAt)));
    case _ =>
  }

  /** The dropped counter counts exactly the lines the full queue turned away. */
  lemma {:induction false} DroppedCounts(s: Sys, ls: seq<Label>, t: Sys)
    requires Path(s, ls, t)
    ensures t.w.dropped - s.w.dropped == LinesIn(t.h.lost) - LinesIn(s.h.lost)
    decreases |ls|
  {
    if ls != [] {
      CountStep(s, ls[0]);
      DroppedCounts(Next(s, ls[0]), ls[1..], t);
    }
  }

  // ----- rows keep their beginning -----

  /** Rows tell a job's command and starting time as they were inserted: from tables without
      the job, through any writes, trims and insertions of it that agree, a row of it agrees. */
  lemma {:induction false} RowsKeepStart(db: Db, ops: seq<Op>, id: JobId, command: string, startedAt: int)
    requires id in db.rows ==> db.rows[id].command == command && db.rows[id].startedAt == startedAt
    requires forall op :: op in ops && op.Inserted? && op.job == id ==> op.command == command && op.startedAt == startedAt
    ensures id in Replay(db, ops).rows ==>
              Replay(db, ops).rows[id].command == command && Replay(db, ops).rows[id].startedAt == startedAt
  {
    if ops != [] {
      var front, last := ops[..|ops| - 1], ops[|ops| - 1];
      assert forall op :: op in front ==> op in ops;
      assert last in ops;
      RowsKeepStart(db, front, id, command, startedAt);
    }
  }
}
