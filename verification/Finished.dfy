/** A finished job looks the same from memory and from the store. */
module Finished {
  import opened Recs
  import opened LineSpec
  import opened Merge
  import opened Listing
  import opened StoreSpec
  import opened Pipeline
  import opened Persistence
  import opened Reading

  const RESULT_LINES := 50

  /** What clients can observe about a finished job: its history by stream, whether it is
      done, and the event that ends a watch. */
  datatype View = View(history: seq<Rec>, done: bool)

  datatype DoneEvent = DoneEvent(exitCode: int, stdout: Text, stderr: Text)

  function StoredTail(rs: seq<Rec>): Text {
    Join(Last(RESULT_LINES, Lines(rs)))
  }

  function MemoryView(s: Sys, k: int): View {
    View(ReadAcross(s, s, s, k), s.hub.state != Running)
  }

  function StoreView(s: Sys, k: int): View {
    View(Query(s, k), s.job.id in s.w.db.rows && s.w.db.rows[s.job.id].state != Running)
  }

  function MemoryDone(s: Sys): DoneEvent {
    DoneEvent(s.hub.exitCode, TailOf(s.job.out, RESULT_LINES), TailOf(s.job.err, RESULT_LINES))
  }

  function StoreDone(s: Sys): DoneEvent
    requires s.job.id in s.w.db.rows
  {
    DoneEvent(s.w.db.rows[s.job.id].exitCode, StoredTail(Query(s, STDOUT)), StoredTail(Query(s, STDERR)))
  }

  /** All of the job's output and its finish record have reached the tables, and no
      partial line is left. */
  ghost predicate Persisted(s: Sys) {
    && Clean(s) && s.job.pend == [] && s.job.out.cur == [] && s.job.err.cur == []
    && (forall r :: LineItem(s.job.id, r) !in s.h.lost)
    && (forall r :: LineItem(s.job.id, r) !in s.w.batch + s.w.ch)
    && (exists fin :: FinItem(s.job.id, fin) in Writes(s.h.ops))
    && s.job.id in s.w.db.rows
  }

  // ----- the row -----

  lemma {:induction false} RowIsFinal(db: Db, ops: seq<Op>, id: JobId, fin: Fin)
    requires id in Replay(db, ops).rows && FinItem(id, fin) in Writes(ops)
    requires forall op :: op in ops && op.Inserted? ==> op.job != id
    requires forall f :: FinItem(id, f) in Writes(ops) ==> f == fin
    ensures var row := Replay(db, ops).rows[id];
            row.state == fin.state && row.exitCode == fin.exitCode && row.finishedAt == fin.finishedAt
  {
    var front, last := ops[..|ops| - 1], ops[|ops| - 1];
    assert forall op :: op in front ==> op in ops;
    assert last in ops;
    assert forall item :: item in Writes(front) ==> item in Writes(ops);
    if last.Wrote? && last.item.FinItem? && last.item.job == id {
      assert last.item in Writes(ops);
      assert last.item == FinItem(id, last.item.fin);
    } else {
      assert FinItem(id, fin) in Writes(front);
      RowIsFinal(db, front, id, fin);
    }
  }

  lemma RowMatches(t: Sys)
    requires Inv(t) && Persisted(t)
    ensures t.hub.phase !in {Working, Settled}
    ensures t.w.db.rows[t.job.id].state == t.hub.state && t.w.db.rows[t.job.id].exitCode == t.hub.exitCode
  {
    var fin :| FinItem(t.job.id, fin) in Writes(t.h.ops);
    forall f | FinItem(t.job.id, f) in Writes(t.h.ops)
      ensures f == Fin(t.hub.state, t.hub.exitCode, t.hub.finishedAt) && t.hub.phase !in {Working, Settled}
    {
      assert FinItem(t.job.id, f) in Held(t);
      assert FinItem(t.job.id, f) in t.h.accepted + t.h.lost;
    }
    RowIsFinal(t.h.start, t.h.ops, t.job.id, fin);
  }

  // ----- the history -----

  /** With everything in the table, the rings add nothing. */
  lemma HistoryMatches(s: Sys, ls: seq<Label>, t: Sys, k: int)
    requires Initial(s) && Path(s, ls, t) && Persisted(t) && k in {-1, STDOUT, STDERR}
    ensures Query(t, k) == Keep(t.job.log, k) && ReadAcross(t, t, t, k) == Keep(t.job.log, k)
  {
    FinalTable(s, ls, t, k);
    Start(s);
    Run(s, ls, t);
    ReadSound(s, t, t, t, ls, [], [], k);
    KeepIncreasing(t.job.log, k);
    forall r | r in Keep(t.job.log, k) ensures r in ReadAcross(t, t, t, k) {
      MergedElems(Query(t, k), t.job.out.recs, t.job.err.recs, k, r);
    }
    IncreasingUnique(ReadAcross(t, t, t, k), Keep(t.job.log, k));
  }

  // ----- the tails -----

  /** The last fifty lines of a stream read from its ring and from the store agree exactly
      when the ring is at least that long or never overflowed. */
  lemma TailsAgree(j: Job, k: int)
    requires JobInv(j) && k in {STDOUT, STDERR} && Ring(j, k).cur == []
    ensures TailOf(Ring(j, k), RESULT_LINES) == StoredTail(Keep(j.log, k)) <==>
            RESULT_LINES <= j.max || |Keep(j.log, k)| <= j.max
  {
    var kept, ring := Keep(j.log, k), Ring(j, k);
    if RESULT_LINES <= j.max || |kept| <= j.max {
      TailOfWindow(j.max, ring, kept, RESULT_LINES);
      assert LineSpec.Entries(kept, []) == Lines(kept);
    } else {
      ShortTail(j.max, ring, kept);
    }
  }

  lemma ShortTail(max: nat, ring: Buf, kept: seq<Rec>)
    requires Window(max, ring, kept) && ring.cur == [] && 0 < max < RESULT_LINES && max < |kept|
    ensures TailOf(ring, RESULT_LINES) != StoredTail(kept)
  {
    var ts, us := Last(RESULT_LINES, Lines(kept)), Lines(ring.recs);
    assert LineSpec.Entries(ring.recs, []) == us;
    JoinShorter(ts, |ts| - max);
    assert ts[|ts| - max..] == us;
  }

  /** Dropping a finished, fully persisted job from memory changes no history, no done
      flag and no exit code, and leaves the closing tails alone exactly when each stream's
      ring held fifty lines or never overflowed. */
  lemma PruneUnobservable(s: Sys, ls: seq<Label>, t: Sys, k: int)
    requires Initial(s) && Path(s, ls, t) && Persisted(t) && t.hub.state != Running
    requires k in {-1, STDOUT, STDERR}
    ensures MemoryView(t, k) == StoreView(t, k)
    ensures MemoryDone(t) == StoreDone(t) <==>
            (RESULT_LINES <= t.job.max || (|Keep(t.job.log, STDOUT)| <= t.job.max && |Keep(t.job.log, STDERR)| <= t.job.max))
  {
    HistoryMatches(s, ls, t, k);
    HistoryMatches(s, ls, t, STDOUT);
    HistoryMatches(s, ls, t, STDERR);
    Start(s);
    Run(s, ls, t);
    RowMatches(t);
    TailsAgree(t.job, STDOUT);
    TailsAgree(t.job, STDERR);
  }
}
