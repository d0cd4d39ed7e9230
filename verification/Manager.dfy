/** A job with its subscribers, as the program keeps it. */
module Jobs {
  import opened Recs
  import opened LineSpec
  import opened LineBuffers
  import opened Listing
  import opened StoreSpec
  import opened Stores
  import opened Finished
  import opened Pipeline

  function OfferTo(buf: seq<Text>, line: Text): seq<Text> {
    if |buf| < SUB_CAP then buf + [line] else buf
  }

  /** What a subscriber's channel holds is what was sent to it and not yet read. */
  lemma OfferIsSend(w: Watch, r: Rec)
    requires w.read <= |w.sent|
    ensures Lines(Send(w, r).sent[w.read..]) == OfferTo(Lines(w.sent[w.read..]), r.line)
  {
    assert (w.sent + [r])[w.read..] == w.sent[w.read..] + [r];
    assert Lines(w.sent[w.read..] + [r]) == Lines(w.sent[w.read..]) + [r.line];
  }

  class Chan {
    var buf: seq<Text>
    var closed: bool

    constructor ()
      ensures buf == [] && !closed
    {
      buf, closed := [], false;
    }
  }

  /** A channel as the step system sees it. */
  ghost predicate Carries(ch: Chan, w: Watch)
    reads ch
  {
    w.read <= |w.sent| && ch.closed == w.closed && ch.buf == Lines(w.sent[w.read..]) && |ch.buf| <= SUB_CAP
  }

  ghost predicate Distinct(chans: seq<Chan>) {
    forall a, b :: 0 <= a < b < |chans| ==> chans[a] != chans[b]
  }

  /** chans are all channels ever made, one for each watch of the step system; subs are the
      registered ones, which are the open ones. */
  ghost predicate Tied(h: Hub, subs: seq<Chan>, chans: seq<Chan>)
    reads chans
  {
    && h.mid.Free? && Distinct(chans) && |chans| == |h.watches| && |subs| == |h.subs|
    && (forall i :: 0 <= i < |subs| ==> h.subs[i] < |chans| && subs[i] == chans[h.subs[i]])
    && (forall a, b :: 0 <= a < b < |h.subs| ==> h.subs[a] != h.subs[b])
    && (forall c :: 0 <= c < |chans| ==> Carries(chans[c], h.watches[c]) && (c in h.subs <==> !h.watches[c].closed))
  }

  lemma TiedSubs(h: Hub, subs: seq<Chan>, chans: seq<Chan>)
    requires Tied(h, subs, chans)
    ensures Distinct(subs) && forall ch :: ch in subs ==> ch in chans && !ch.closed
    ensures forall c :: 0 <= c < |chans| ==> (c in h.subs <==> chans[c] in subs)
  {
    forall c | 0 <= c < |chans| ensures c in h.subs <==> chans[c] in subs {
      if c in h.subs { var i :| 0 <= i < |h.subs| && h.subs[i] == c; assert subs[i] == chans[c]; }
      if chans[c] in subs { var i :| 0 <= i < |subs| && subs[i] == chans[c]; assert h.subs[i] in h.subs; }
    }
    forall ch | ch in subs ensures ch in chans && !ch.closed {
      var i :| 0 <= i < |subs| && subs[i] == ch;
      assert h.subs[i] in h.subs;
      assert Carries(chans[h.subs[i]], h.watches[h.subs[i]]);
    }
  }

  lemma TiedGrows(h: Hub, subs: seq<Chan>, chans: seq<Chan>, ch: Chan, w: Watch)
    requires Tied(h, subs, chans) && ch !in chans && Carries(ch, w) && !w.closed
    ensures Tied(Registered(h, w), subs + [ch], chans + [ch])
  {
    forall i | 0 <= i < |subs| ensures h.subs[i] < |chans| {
    }
  }

  /** Offers a line to every channel without waiting for any. */
  method OfferEach(chans: seq<Chan>, line: Text)
    requires Distinct(chans)
    modifies chans
    ensures forall ch :: ch in chans ==> ch.closed == old(ch.closed) && ch.buf == OfferTo(old(ch.buf), line)
  {
    for i := 0 to |chans|
      invariant forall ch :: ch in chans ==> ch.closed == old(ch.closed)
      invariant forall k :: 0 <= k < i ==> chans[k].buf == OfferTo(old(chans[k].buf), line)
      invariant forall k :: i <= k < |chans| ==> chans[k].buf == old(chans[k].buf)
    {
      if |chans[i].buf| < SUB_CAP {
        chans[i].buf := chans[i].buf + [line];
      }
    }
  }

  /** Closes open channels, each once. */
  method CloseEach(chans: seq<Chan>)
    requires Distinct(chans)
    requires forall ch :: ch in chans ==> !ch.closed
    modifies chans
    ensures forall ch :: ch in chans ==> ch.closed && ch.buf == old(ch.buf)
  {
    for i := 0 to |chans|
      invariant forall k :: 0 <= k < i ==> chans[k].closed
      invariant forall k :: i <= k < |chans| ==> !chans[k].closed
      invariant forall ch :: ch in chans ==> ch.buf == old(ch.buf)
    {
      chans[i].closed := true;
    }
  }

  /** Offering a line, as the step system sees it. */
  method OfferTied(ghost h: Hub, subs: seq<Chan>, ghost chans: seq<Chan>, line: Text, ghost r: Rec)
    requires Tied(h, subs, chans) && r.line == line != []
    modifies subs
    ensures Tied(Fanout(h, r), subs, chans)
    ensures forall ch :: ch in subs ==> ch.closed == old(ch.closed) && ch.buf == OfferTo(old(ch.buf), line)
  {
    TiedSubs(h, subs, chans);
    OfferEach(subs, line);
    forall c | 0 <= c < |chans| ensures Carries(chans[c], Fanout(h, r).watches[c]) {
      assert chans[c].closed == old(chans[c].closed);
      assert chans[c].buf == if c in h.subs then OfferTo(old(chans[c].buf), r.line) else old(chans[c].buf);
      OfferIsSend(h.watches[c], r);
    }
  }

  method CloseTied(ghost h: Hub, subs: seq<Chan>, ghost chans: seq<Chan>)
    requires Tied(h, subs, chans)
    modifies subs
    ensures Tied(Closing(h), [], chans)
    ensures forall ch :: ch in subs ==> ch.closed && ch.buf == old(ch.buf)
  {
    TiedSubs(h, subs, chans);
    CloseEach(subs);
    forall c | 0 <= c < |chans| ensures Carries(chans[c], Closing(h).watches[c]) {
      assert chans[c].buf == old(chans[c].buf);
      assert chans[c].closed == (c in h.subs || old(chans[c].closed));
    }
  }

  class Job {
    const id: JobId
    const command: string
    const startedAt: int
    const stdout: LineBuffer
    const stderr: LineBuffer
    var state: JobState
    var exitCode: int
    var finishedAt: int
    var subs: seq<Chan>
    var done: bool

    /** The step system's view of the subscribers and of the job's end. */
    ghost var hub: Hub
    /** Every channel ever made. */
    ghost var chans: seq<Chan>

    ghost predicate Valid()
      reads this, chans, stdout, stderr
    {
      && stdout.Valid() && stderr.Valid()
      && Tied(hub, subs, chans)
      && hub.state == state && hub.exitCode == exitCode && hub.finishedAt == finishedAt
      && (done <==> hub.phase == DoneClosed)
    }

    constructor (id: JobId, command: string, memLines: int, now: int)
      ensures Valid() && fresh(stdout) && fresh(stderr)
      ensures this.id == id && this.command == command && startedAt == now
      ensures hub == Hub([], [], Free, Working, Running, 0, 0) && chans == [] && !done
      ensures stdout.log == [] && stderr.log == [] && stdout.counter == stderr.counter
      ensures stdout.stream == STDOUT && stderr.stream == STDERR
      ensures stdout.max == stderr.max == if memLines <= 0 then 10000 else memLines
    {
      this.id, this.command, startedAt := id, command, now;
      state, exitCode, finishedAt, subs, done := Running, 0, 0, [], false;
      hub, chans := Hub([], [], Free, Working, Running, 0, 0), [];
      var seqCtr := new Counter();
      stdout := new LineBuffer(memLines, STDOUT, seqCtr);
      stderr := new LineBuffer(memLines, STDERR, seqCtr);
    }

    /** Offers a line to every subscriber without waiting for any; empty lines are not
        streamed. r is the line with its number. */
    method PublishLine(line: Text, ghost r: Rec)
      requires Valid() && r.line == line
      modifies this`hub, subs
      ensures Valid() && hub == Fanout(old(hub), r) && chans == old(chans)
      ensures forall ch :: ch in subs ==>
                ch.closed == old(ch.closed) && ch.buf == if line == [] then old(ch.buf) else OfferTo(old(ch.buf), line)
    {
      if line == [] {
        return;
      }
      OfferTied(hub, subs, chans, line, r);
      hub := Fanout(hub, r);
    }

    /** The rings merged by number, and a channel for what follows unless the job is done.
        unpub are the lines completed and not yet published. */
    method Subscribe(ghost unpub: set<Rec>) returns (replay: seq<Text>, ch: Chan?)
      requires Valid()
      modifies this`subs, this`hub, this`chans
      ensures Valid()
      ensures replay == Lines(SortBySeq(Last(stdout.max, stdout.log) + Last(stderr.max, stderr.log)))
      ensures done ==> ch == null && hub == old(hub)
      ensures !done ==>
                && ch != null && fresh(ch) && subs == old(subs) + [ch] && chans == old(chans) + [ch]
                && hub == Registered(old(hub), Watch(stdout.recs + stderr.recs, stdout.dropped, stderr.dropped,
                                                     [], [], 0, false, unpub, stdout.counter.n))
    {
      replay := Replay();
      if done {
        return replay, null;
      }
      ch := AddSub(Watch(stdout.recs + stderr.recs, stdout.dropped, stderr.dropped, [], [], 0, false, unpub, stdout.counter.n));
    }

    method AddSub(ghost w: Watch) returns (ch: Chan)
      requires Tied(hub, subs, chans) && w.sent == [] && w.read == 0 && !w.closed
      modifies this`subs, this`hub, this`chans
      ensures fresh(ch) && subs == old(subs) + [ch] && chans == old(chans) + [ch]
      ensures hub == Registered(old(hub), w) && Tied(hub, subs, chans)
    {
      ch := new Chan();
      TiedGrows(hub, subs, chans, ch, w);
      subs := subs + [ch];
      chans := chans + [ch];
      hub := Registered(hub, w);
    }

    method Replay() returns (replay: seq<Text>)
      requires stdout.Valid() && stderr.Valid()
      ensures replay == Lines(SortBySeq(Last(stdout.max, stdout.log) + Last(stderr.max, stderr.log)))
    {
      var out := stdout.Recs();
      var err := stderr.Recs();
      replay := LinesOf(SortBySeq(out + err));
    }

    /** A subscriber takes the next line from its channel. */
    method Receive(ch: Chan, ghost c: nat) returns (line: Text)
      requires Valid() && c < |chans| && chans[c] == ch && ch.buf != []
      modifies this`hub, ch
      ensures Valid() && hub == Received(old(hub), c) && chans == old(chans)
      ensures line == old(hub).watches[c].sent[old(hub).watches[c].read].line
    {
      line := ch.buf[0];
      ch.buf := ch.buf[1..];
      ReceiveIsRead(hub.watches[c]);
      hub := Received(hub, c);
    }

    /** Closes every registered channel, once, and forgets them. */
    method FinishSubs()
      requires Valid() && hub.phase == Announced
      modifies this`subs, this`hub, subs
      ensures Valid() && hub == Closing(old(hub)) && chans == old(chans) && subs == []
      ensures forall ch :: ch in old(subs) ==> ch.closed && ch.buf == old(ch.buf)
    {
      CloseTied(hub, subs, chans);
      subs := [];
      hub := Closing(hub);
    }

    /** Signals the end of the job. */
    method CloseDone()
      requires Valid() && hub.phase == SubsClosed
      modifies this`done, this`hub
      ensures Valid() && done && hub == old(hub).(phase := DoneClosed)
    {
      done := true;
      hub := hub.(phase := DoneClosed);
    }

    /** What a watch of this job ends with. */
    method Result() returns (d: DoneEvent)
      requires Valid()
      ensures d == DoneEvent(exitCode, TailOf(stdout.Contents(), RESULT_LINES), TailOf(stderr.Contents(), RESULT_LINES))
    {
      var out := stdout.Tail(RESULT_LINES);
      var err := stderr.Tail(RESULT_LINES);
      d := DoneEvent(exitCode, out, err);
    }

    /** The terminal fields, set before anything is closed. */
    method Settle(failed: bool, cancelled: bool, code: int, now: int)
      requires Valid() && hub.phase == Working
      modifies this`state, this`exitCode, this`finishedAt, this`hub
      ensures Valid() && hub == Ended(old(hub), failed, cancelled, code, now)
      ensures state != Running && exitCode == code && finishedAt == now
      ensures state == Killed <==> cancelled && !failed
      ensures state == Done <==> !failed && !cancelled && code == 0
    {
      if failed {
        state, exitCode := Failed, code;
      } else if cancelled {
        state, exitCode := Killed, code;
      } else if code == 0 {
        state, exitCode := Done, 0;
      } else {
        state, exitCode := Failed, code;
      }
      finishedAt := now;
      hub := Ended(hub, failed, cancelled, code, now);
    }
  }

  /** Puts the finish record behind everything the job has queued. */
  method Announce(j: Job, store: Store)
    requires j.Valid() && j.hub.phase == Settled && store.Valid()
    modifies j`hub, store`ch
    ensures j.Valid() && j.hub == old(j.hub).(phase := Announced) && store.Valid()
    ensures store.State() == Offer(old(store.State()), FinItem(j.id, StoreSpec.Fin(j.state, j.exitCode, j.finishedAt)))
  {
    store.FinishJob(j.id, StoreSpec.Fin(j.state, j.exitCode, j.finishedAt));
    j.hub := j.hub.(phase := Announced);
  }

  /** How the job's goroutine ends once the run has returned: outcome, finish record, then
      its deferred calls. */
  method Conclude(j: Job, store: Store, failed: bool, cancelled: bool, code: int, now: int)
    requires j.Valid() && j.hub.phase == Working && store.Valid()
    modifies j, j.subs, store`ch
    ensures j.Valid() && j.done && j.subs == [] && j.chans == old(j.chans) && store.Valid()
    ensures j.hub == Closing(Ended(old(j.hub), failed, cancelled, code, now)).(phase := DoneClosed)
    ensures j.state != Running && (j.state, j.exitCode) == OutcomeOf(failed, cancelled, code)
    ensures store.State() == Offer(old(store.State()), FinItem(j.id, StoreSpec.Fin(j.state, j.exitCode, now)))
  {
    j.Settle(failed, cancelled, code, now);
    Announce(j, store);
    Close(j);
  }

  /** The deferred calls. */
  method Close(j: Job)
    requires j.Valid() && j.hub.phase == Announced
    modifies j`subs, j`done, j`hub, j.subs
    ensures j.Valid() && j.done && j.subs == [] && j.chans == old(j.chans)
    ensures j.hub == Closing(old(j.hub)).(phase := DoneClosed)
  {
    j.FinishSubs();
    j.CloseDone();
  }

  /** The closing event of a job in memory, as the step system tells it. */
  lemma ResultIsMemoryDone(j: Job, s: Sys)
    requires s.job.out == j.stdout.Contents() && s.job.err == j.stderr.Contents() && s.hub.exitCode == j.exitCode
    ensures MemoryDone(s) == DoneEvent(j.exitCode, TailOf(j.stdout.Contents(), 50), TailOf(j.stderr.Contents(), 50))
  {
  }

  method LinesOf(recs: seq<Rec>) returns (out: seq<Text>)
    ensures out == Lines(recs)
  {
    out := [];
    var i := 0;
    while i < |recs|
      invariant 0 <= i <= |recs| && out == Lines(recs[..i])
    {
      out := out + [recs[i].line];
      i := i + 1;
    }
    assert recs[..|recs|] == recs;
  }

  lemma ReceiveIsRead(w: Watch)
    requires w.read < |w.sent|
    ensures Lines(w.sent[w.read..]) == [w.sent[w.read].line] + Lines(w.sent[w.read + 1..])
  {
  }
}

/** The job registry over the store. */
module Managers {
  import opened Recs
  import opened Listing
  import opened StoreSpec
  import opened Stores
  import opened LineSpec
  import opened LineBuffers
  import opened Merge
  import opened Paging
  import opened Jobs
  import Pipeline
  import Persistence
  import Reading
  import Finished

  datatype Output = Output(lines: seq<Text>, total: int, start: int, end: int, done: bool) | Panic

  class Manager {
    const store: Store
    const memLines: int
    var jobs: map<JobId, Job>

    constructor (store: Store, memLines: int)
      ensures this.store == store && jobs == map[] && this.memLines == if memLines <= 0 then 10000 else memLines
    {
      this.store, this.memLines := store, if memLines <= 0 then 10000 else memLines;
      jobs := map[];
    }

    /** The history of a job by stream: what is persisted, and for a job in memory what the
        rings hold above it. */
    ghost function History(id: JobId, k: int): seq<Rec>
      reads *
    {
      var persisted := QueryRecs(store.Tables(), id, k);
      if id in jobs then Merged(persisted, jobs[id].stdout.recs, jobs[id].stderr.recs, k) else persisted
    }

    ghost function IsDone(id: JobId): bool
      reads *
    {
      if id in jobs then jobs[id].state != Running
      else id in store.rows && store.rows[id].state != Running
    }

    method ReadMerged(id: JobId, k: int) returns (recs: seq<Rec>)
      ensures recs == History(id, k)
    {
      var persisted := store.QueryLines(id, k);
      QueryUnique(store.Tables(), id, k, persisted);
      var maxSeq := MaxOf(persisted);
      if id !in jobs {
        return persisted;
      }
      var j := jobs[id];
      var mem: seq<Rec> := [];
      if k == STDOUT || k < 0 {
        mem := AppendStream(mem, j.stdout.recs, maxSeq);
        assert mem == Above(j.stdout.recs, maxSeq);
      }
      if k == STDERR || k < 0 {
        mem := AppendStream(mem, j.stderr.recs, maxSeq);
      }
      assert mem == Fresh(j.stdout.recs, j.stderr.recs, k, maxSeq);
      recs := persisted + SortBySeq(mem);
    }

    /** The last n lines of the whole history. */
    method ReplayTail(id: JobId, n: nat) returns (out: seq<Text>)
      ensures out == Lines(Last(n, History(id, -1)))
    {
      var recs := ReadMerged(id, -1);
      if |recs| > n {
        recs := recs[|recs| - n..];
      }
      out := LinesOf(recs);
    }

    static method MaxOf(recs: seq<Rec>) returns (m: int)
      ensures m == MaxSeqno(recs)
    {
      m := 0;
      var i := 0;
      while i < |recs|
        invariant 0 <= i <= |recs| && m == MaxSeqno(recs[..i])
      {
        MaxNext(recs, i);
        if recs[i].seqno > m {
          m := recs[i].seqno;
        }
        i := i + 1;
      }
      assert recs[..|recs|] == recs;
    }

    static method AppendStream(mem: seq<Rec>, recs: seq<Rec>, maxSeq: int) returns (out: seq<Rec>)
      ensures out == mem + Above(recs, maxSeq)
    {
      out := mem;
      var i := 0;
      while i < |recs|
        invariant 0 <= i <= |recs| && out == mem + Above(recs[..i], maxSeq)
      {
        AboveSnoc(recs[..i], recs[i], maxSeq);
        assert recs[..i + 1] == recs[..i] + [recs[i]];
        if recs[i].seqno > maxSeq {
          out := out + [recs[i]];
        }
        i := i + 1;
      }
      assert recs[..|recs|] == recs;
    }

    /** A page of the history: its lines, or the crash that a length that wraps to a negative
        integer causes. From 2^32 lines on, a length that wraps to another counts as that. */
    method OutputLines(id: JobId, k: int, start: int, end: int) returns (o: Output)
      requires Int32(start) && Int32(end)
      ensures var recs := History(id, k);
              var b := PageBounds(|recs|, start, end);
              if Wrap32(|recs|) < 0 then o == Panic
              else InBounds(b, |recs|) && o == Output(Lines(recs[b.start..b.end]), b.total, b.start, b.end, IsDone(id))
      ensures var recs := History(id, k);
              |recs| < TWO31 ==>
                o == Output(Lines(Page(recs, start, end)), |recs|,
                            PageBounds(|recs|, start, end).start, PageBounds(|recs|, start, end).end, IsDone(id))
    {
      var recs := ReadMerged(id, k);
      var n, s, e := Clamp(|recs|, start, end);
      PageDefined(|recs|, start, end);
      if !(0 <= s <= e <= |recs|) {
        return Panic;
      }
      var out := LinesOf(recs[s..e]);
      var done := if id in jobs then jobs[id].state != Running
                  else id in store.rows && store.rows[id].state != Running;
      o := Output(out, n, s, e, done);
    }

    static method Clamp(len: nat, start: int, end: int) returns (n: int, s: int, e: int)
      requires Int32(start) && Int32(end)
      ensures Bounds(n, s, e) == PageBounds(len, start, end)
    {
      n := Wrap32(len);
      s := start;
      if s < 0 {
        s := Wrap32(n + s);
        if s < 0 {
          s := 0;
        }
      }
      e := end;
      if e <= 0 || e > n {
        e := n;
      }
      if s > n {
        s := n;
      }
      if e < s {
        e := s;
      }
    }

    static predicate Stale(j: Job, cutoff: int)
      reads j
    {
      j.state != Running && j.finishedAt < cutoff
    }

    /** Drops finished jobs from memory; the store keeps its own. */
    method Prune(cutoff: int)
      modifies this`jobs
      ensures jobs == map id | id in old(jobs) && !Stale(old(jobs)[id], cutoff) :: old(jobs)[id]
      ensures forall id :: id in old(jobs) ==>
                (id in jobs <==> old(jobs)[id].state == Running || old(jobs)[id].finishedAt >= cutoff)
    {
      var left := jobs.Keys;
      ghost var before := jobs;
      while left != {}
        invariant left <= jobs.Keys <= before.Keys
        invariant forall id :: id in before ==> (id in jobs <==> id in left || !Stale(before[id], cutoff))
        invariant forall id :: id in jobs ==> jobs[id] == before[id]
        decreases left
      {
        var id :| id in left;
        left := left - {id};
        if Stale(jobs[id], cutoff) {
          jobs := map k | k in jobs && k != id :: jobs[k];
        }
      }
    }

    static function RowOf(j: Job): Row
      reads j
    {
      Row(j.command, j.state, j.exitCode, j.startedAt, j.finishedAt)
    }

    ghost function MemRows(): map<JobId, Row>
      reads *
    {
      map id | id in jobs :: RowOf(jobs[id])
    }

    /** The newest jobs of store and memory together. A job the store's page holds is
        listed with its stored row, even when memory knows better. */
    method List(limit: int) returns (out: seq<JobRow>)
      ensures TopOfUnion(out, store.rows, MemRows(), if limit <= 0 then 500 else limit)
    {
      var most := if limit <= 0 then 500 else limit;
      var rows := store.QueryJobs(most);
      var page := Collect(rows, store.rows);
      var byId := AddMissing(page);
      out := Newest(byId, most);
      MergedListingAll(rows, store.rows, MemRows(), out, most);
    }

    static method Collect(rows: seq<JobRow>, ghost m: map<JobId, Row>) returns (byId: map<JobId, Row>)
      requires forall x :: x in rows ==> x.id in m && m[x.id] == x.row
      ensures byId == PageMap(rows, m)
    {
      byId := map[];
      var i := 0;
      while i < |rows|
        invariant 0 <= i <= |rows|
        invariant forall id :: id in byId <==> id in m && JobRow(id, m[id]) in rows[..i]
        invariant forall id :: id in byId ==> byId[id] == m[id]
      {
        assert rows[i] in rows && rows[..i + 1] == rows[..i] + [rows[i]];
        byId := byId[rows[i].id := rows[i].row];
        i := i + 1;
      }
      assert rows[..|rows|] == rows;
    }

    /** Adds the in-memory jobs a page of the store lacks. */
    method AddMissing(page: map<JobId, Row>) returns (byId: map<JobId, Row>)
      ensures byId == Overlay(page, MemRows())
    {
      byId := page;
      var left := jobs.Keys;
      while left != {}
        invariant left <= jobs.Keys
        invariant forall id :: id in byId <==> id in page || (id in jobs && id !in left)
        invariant forall id :: id in byId ==> byId[id] == if id in page then page[id] else RowOf(jobs[id])
        decreases left
      {
        var id :| id in left;
        left := left - {id};
        if id !in byId {
          byId := byId[id := RowOf(jobs[id])];
        }
      }
    }
  }

  // ----- the registry's answers and the step system -----

  /** A history and a done flag answered by the registry are what the step system reads in a
      state with the same rings and tables: from memory for a job in memory, from the store
      for any other. So what is proved of reads over runs holds of these answers. */
  lemma HistoryIsRead(m: Manager, id: JobId, k: int, s: Pipeline.Sys)
    requires s.job.id == id && s.w.db == m.store.Tables()
    requires id in m.jobs ==>
               && s.job.out == m.jobs[id].stdout.Contents() && s.job.err == m.jobs[id].stderr.Contents()
               && s.hub.state == m.jobs[id].state
    ensures Finished.View(m.History(id, k), m.IsDone(id)) ==
            if id in m.jobs then Finished.MemoryView(s, k) else Finished.StoreView(s, k)
    ensures id in m.jobs ==> m.History(id, k) == Reading.ReadAcross(s, s, s, k)
  {
  }

  /** One line at a time: what is stored of the wanted streams, and, for a job in memory, what
      its rings hold of them above the greatest stored number. */
  lemma HistoryElems(m: Manager, id: JobId, k: int, r: Rec)
    ensures var rows := QueryRecs(m.store.Tables(), id, k);
            r in m.History(id, k) <==>
            || (Stored(m.store.Tables(), id, r) && (k < 0 || r.stream == k))
            || (id in m.jobs && r.seqno > MaxSeqno(rows)
                && (((k == STDOUT || k < 0) && r in m.jobs[id].stdout.recs) || ((k == STDERR || k < 0) && r in m.jobs[id].stderr.recs)))
  {
    QueryExact(m.store.Tables(), id, k);
    if id in m.jobs {
      MergedElems(QueryRecs(m.store.Tables(), id, k), m.jobs[id].stdout.recs, m.jobs[id].stderr.recs, k, r);
    }
  }

  /** The registry's read of one stream against that buffer's unbounded log: exact if and only
      if the rows are its first lines and the ring evicted none beyond them. log is the job's
      completed lines over both buffers. */
  lemma HistoryOfStream(m: Manager, id: JobId, k: int, log: seq<Rec>)
    requires id in m.jobs && m.jobs[id].stdout.Valid() && m.jobs[id].stderr.Valid() && k in {STDOUT, STDERR}
    requires Numbered(log) && Keep(log, STDOUT) == m.jobs[id].stdout.log && Keep(log, STDERR) == m.jobs[id].stderr.log
    requires forall r :: Stored(m.store.Tables(), id, r) ==> r in log
    ensures var rows, buf := QueryRecs(m.store.Tables(), id, k), if k == STDOUT then m.jobs[id].stdout else m.jobs[id].stderr;
            m.History(id, k) == buf.log <==> rows <= buf.log && buf.dropped <= |rows|
  {
    var j := m.jobs[id];
    RingsOf(j, log);
    QueryExact(m.store.Tables(), id, k);
    MergedOneExact(log, QueryRecs(m.store.Tables(), id, k), j.stdout.recs, j.stderr.recs, k,
                   if k == STDOUT then j.stdout.dropped else j.stderr.dropped);
  }

  /** The same for both streams: the registry answers the job's whole output in order of
      completion if and only if the rows are its first lines and neither ring evicted more. */
  lemma HistoryOfJob(m: Manager, id: JobId, log: seq<Rec>)
    requires id in m.jobs && m.jobs[id].stdout.Valid() && m.jobs[id].stderr.Valid()
    requires Numbered(log) && Keep(log, STDOUT) == m.jobs[id].stdout.log && Keep(log, STDERR) == m.jobs[id].stderr.log
    requires forall r :: Stored(m.store.Tables(), id, r) ==> r in log
    ensures var rows, j := QueryRecs(m.store.Tables(), id, -1), m.jobs[id];
            m.History(id, -1) == log <==>
            rows <= log && j.stdout.dropped <= |Keep(rows, STDOUT)| && j.stderr.dropped <= |Keep(rows, STDERR)|
  {
    var j := m.jobs[id];
    RingsOf(j, log);
    QueryExact(m.store.Tables(), id, -1);
    MergedAllExact(log, log, QueryRecs(m.store.Tables(), id, -1), j.stdout.recs, j.stderr.recs, j.stdout.dropped, j.stderr.dropped);
  }

  lemma RingsOf(j: Job, log: seq<Rec>)
    requires j.stdout.Valid() && j.stderr.Valid() && Numbered(log)
    requires Keep(log, STDOUT) == j.stdout.log && Keep(log, STDERR) == j.stderr.log
    ensures j.stdout.dropped <= |j.stdout.log| && j.stdout.recs == j.stdout.log[j.stdout.dropped..]
    ensures j.stderr.dropped <= |j.stderr.log| && j.stderr.recs == j.stderr.log[j.stderr.dropped..]
    ensures RingOf(j.stdout.recs, log, STDOUT) && RingOf(j.stderr.recs, log, STDERR)
  {
    WindowIsSuffix(j.stdout.max, j.stdout.Contents(), j.stdout.log);
    WindowIsSuffix(j.stderr.max, j.stderr.Contents(), j.stderr.log);
    SuffixIsRing(log, STDOUT, j.stdout.dropped, j.stdout.recs);
    SuffixIsRing(log, STDERR, j.stderr.dropped, j.stderr.recs);
  }

  // ----- starting times -----

  /** The row inserted for a job just made is the row memory shows for it. */
  lemma InsertedAsShown(j: Job, db: Db)
    requires j.state == Running && j.exitCode == 0 && j.finishedAt == 0
    ensures NewRow(db, j.id, j.command, j.startedAt).rows[j.id] == Manager.RowOf(j)
    ensures Manager.RowOf(j) == Listing.Row(j.command, j.state, j.exitCode, j.startedAt, j.finishedAt)
  {
  }

  /** Memory and store agree on starting times: over tables that knew none of the jobs in
      memory, through any writes and trims, with rows of those jobs inserted as the registry
      inserts them. */
  lemma StartsAgree(m: Manager, db: Db, ops: seq<Pipeline.Op>)
    requires forall id :: id in m.jobs ==> id !in db.rows
    requires forall op :: op in ops && op.Inserted? && op.job in m.jobs ==>
               op.command == m.jobs[op.job].command && op.startedAt == m.jobs[op.job].startedAt
    requires m.store.Tables() == Pipeline.Replay(db, ops)
    ensures SameStarts(m.store.rows, m.MemRows())
    ensures forall id :: id in m.jobs && id in m.store.rows ==> m.store.rows[id].command == m.MemRows()[id].command
  {
    forall id | id in m.jobs && id in m.store.rows
      ensures m.store.rows[id].startedAt == m.jobs[id].startedAt && m.store.rows[id].command == m.jobs[id].command
    {
      Persistence.RowsKeepStart(db, ops, id, m.jobs[id].command, m.jobs[id].startedAt);
    }
  }

  lemma MaxSnoc(rs: seq<Rec>, r: Rec)
    ensures MaxSeqno(rs + [r]) == if r.seqno > MaxSeqno(rs) then r.seqno else MaxSeqno(rs)
  {
    assert (rs + [r])[..|rs|] == rs;
  }

  lemma MaxNext(rs: seq<Rec>, i: nat)
    requires i < |rs|
    ensures MaxSeqno(rs[..i + 1]) == if rs[i].seqno > MaxSeqno(rs[..i]) then rs[i].seqno else MaxSeqno(rs[..i])
  {
    assert rs[..i + 1] == rs[..i] + [rs[i]];
    MaxSnoc(rs[..i], rs[i]);
  }

  lemma AboveSnoc(rs: seq<Rec>, r: Rec, m: int)
    ensures Above(rs + [r], m) == Above(rs, m) + if r.seqno > m then [r] else []
  {
    assert (rs + [r])[..|rs|] == rs;
  }
}

/** The watch of a job that is no longer in memory. */
module Services {
  import opened Recs
  import opened LineSpec
  import opened Listing
  import opened StoreSpec
  import opened Finished
  import opened Managers
  import Pipeline

  const REPLAY_CAP := 1000

  class WorkerService {
    const jobs: Manager

    constructor (jobs: Manager)
      ensures this.jobs == jobs
    {
      this.jobs := jobs;
    }

    method TailOf(id: JobId, k: int) returns (out: Text)
      ensures out == StoredTail(jobs.History(id, k))
    {
      var recs := jobs.ReadMerged(id, k);
      out := LastJoined(recs);
    }

    static method LastJoined(all: seq<Rec>) returns (out: Text)
      ensures out == StoredTail(all)
    {
      var recs := all;
      if |recs| > RESULT_LINES {
        recs := recs[|recs| - RESULT_LINES..];
      }
      LastLines(RESULT_LINES, all);
      out := Joined(recs);
    }

    static method Joined(recs: seq<Rec>) returns (out: Text)
      ensures out == Join(Lines(recs))
    {
      out := [];
      var i := 0;
      while i < |recs|
        invariant 0 <= i <= |recs|
        invariant out == Join(Lines(recs[..i]))
      {
        assert Lines(recs[..i + 1]) == Lines(recs[..i]) + [recs[i].line];
        JoinSnoc(Lines(recs[..i]), recs[i].line);
        if i > 0 {
          out := out + [LF];
        }
        out := out + recs[i].line;
        i := i + 1;
      }
      assert recs[..|recs|] == recs;
    }

    /** The replay and the closing event, for a job the registry has dropped; not found
        without a row. */
    method WatchStored(id: JobId) returns (found: bool, replay: seq<Text>, d: DoneEvent)
      requires id !in jobs.jobs
      ensures found <==> id in jobs.store.rows
      ensures found ==>
                && replay == Lines(Last(REPLAY_CAP, QueryRecs(jobs.store.Tables(), id, -1)))
                && d == DoneEvent(jobs.store.rows[id].exitCode,
                                  StoredTail(QueryRecs(jobs.store.Tables(), id, STDOUT)),
                                  StoredTail(QueryRecs(jobs.store.Tables(), id, STDERR)))
    {
      if id !in jobs.store.rows {
        return false, [], DoneEvent(0, [], []);
      }
      found := true;
      replay := jobs.ReplayTail(id, REPLAY_CAP);
      var out := TailOf(id, STDOUT);
      var err := TailOf(id, STDERR);
      d := DoneEvent(jobs.store.rows[id].exitCode, out, err);
    }
  }

  /** The closing event of a job in the store, as the step system tells it. */
  lemma StoredIsStoreDone(s: Pipeline.Sys)
    requires s.job.id in s.w.db.rows
    ensures StoreDone(s) ==
            DoneEvent(s.w.db.rows[s.job.id].exitCode,
                      Join(Last(50, Lines(QueryRecs(s.w.db, s.job.id, 0)))),
                      Join(Last(50, Lines(QueryRecs(s.w.db, s.job.id, 1)))))
  {
  }

  lemma JoinSnoc(ts: seq<Text>, t: Text)
    ensures Join(ts + [t]) == if ts == [] then t else Join(ts) + [LF] + t
  {
    assert (ts + [t])[..|ts|] == ts;
  }

  lemma LastLines(n: nat, rs: seq<Rec>)
    ensures Lines(Last(n, rs)) == Last(n, Lines(rs))
  {
  }
}
