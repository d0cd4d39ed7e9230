/** One job's output path as a step system: two buffers filling their rings, line
    callbacks in flight, live subscribers, the writer's queue and the tables. Every job
    is the one in focus of its own instance; the rest of the worker is the environment,
    which may put anything about other jobs into the queue and the tables. */
module Pipeline {
  import opened Recs
  import opened LineSpec
  import opened Merge
  import opened Listing
  import opened StoreSpec

  const SUB_CAP := 256

  // ----- state -----

  /** A completed line whose callback has not finished: `call` is the write that
      completed it, `published` tells whether the fan-out half has run. */
  datatype Pend = Pend(call: int, rec: Rec, published: bool)

  /** log and offered are history: every line completed, and every line handed to the
      store's queue, in that order. */
  datatype Job = Job(id: JobId, max: nat, out: Buf, err: Buf, ctr: int, pend: seq<Pend>,
                     log: seq<Rec>, offered: seq<Rec>)

  /** A subscriber: the ring contents it was given with each ring's dropped count at that
      moment, what publishing put into its channel, what found the channel full, and how
      much it has read. unpub and mark are history: the lines completed but not yet
      published at registration, and the last number assigned by then. */
  datatype Watch = Watch(copied: seq<Rec>, gone0: nat, gone1: nat, sent: seq<Rec>, missed: seq<Rec>,
                         read: nat, closed: bool, unpub: set<Rec>, mark: int)

  /** A subscription in progress holds the subscriber lock while it copies the rings. */
  datatype Mid = Free | GotOut(out: seq<Rec>, gone0: nat) | GotBoth(both: seq<Rec>, gone0: nat, gone1: nat)

  datatype Phase = Working | Settled | Announced | SubsClosed | DoneClosed

  datatype Hub = Hub(watches: seq<Watch>, subs: seq<nat>, mid: Mid, phase: Phase,
                     state: JobState, exitCode: int, finishedAt: int)

  datatype Op = Wrote(item: Item) | Inserted(job: JobId, command: string, startedAt: int) | Trim(cutoff: int)

  /** What the writer's queue took, what it turned away, what reached the database, and
      how many actions the database refused. */
  datatype History = History(start: Db, accepted: seq<Item>, lost: seq<Item>, ops: seq<Op>, failed: nat)

  datatype Sys = Sys(job: Job, hub: Hub, w: Writer, h: History)

  function Ring(j: Job, k: int): Buf {
    if k == STDOUT then j.out else j.err
  }

  function Apply(db: Db, op: Op): Db {
    match op
    case Wrote(item) => Put(db, item)
    case Inserted(job, command, startedAt) => NewRow(db, job, command, startedAt)
    case Trim(cutoff) => Retained(db, cutoff)
  }

  function Replay(db: Db, ops: seq<Op>): Db {
    if ops == [] then db else Apply(Replay(db, ops[..|ops| - 1]), ops[|ops| - 1])
  }

  function Writes(ops: seq<Op>): seq<Item> {
    if ops == [] then []
    else
      var before := Writes(ops[..|ops| - 1]);
      if ops[|ops| - 1].Wrote? then before + [ops[|ops| - 1].item] else before
  }

  function AsOps(items: seq<Item>): (ops: seq<Op>)
    ensures |ops| == |items|
  {
    seq(|items|, i requires 0 <= i < |items| => Wrote(items[i]))
  }

  function PendRecs(ps: seq<Pend>): (rs: seq<Rec>)
    ensures |rs| == |ps| && forall i :: 0 <= i < |ps| ==> rs[i] == ps[i].rec
  {
    seq(|ps|, i requires 0 <= i < |ps| => ps[i].rec)
  }

  /** Callbacks falling due for lines just completed by one write. */
  function Callbacks(call: int, fired: seq<Rec>): (ps: seq<Pend>)
    ensures |ps| == |fired| && forall i :: 0 <= i < |fired| ==> ps[i] == Pend(call, fired[i], false)
  {
    seq(|fired|, i requires 0 <= i < |fired| => Pend(call, fired[i], false))
  }

  ghost predicate Unpub(ps: seq<Pend>, r: Rec) {
    exists q :: q in ps && q.rec == r && !q.published
  }

  ghost predicate Unpublished(j: Job, r: Rec) {
    Unpub(j.pend, r)
  }

  // ----- steps -----

  datatype Label =
    | Chunk(k: int, call: int, p: Text)
    | Flush(k: int, call: int)
    | Publish(i: nat)
    | Enqueue(i: nat)
    | OtherItem(item: Item)
    | OtherRow(other: JobId, command: string, startedAt: int)
    | Take
    | Store(n: nat)
    | Finish(ok: bool)
    | Retain(cutoff: int)
    | CopyOut
    | CopyErr
    | Register
    | Drain(c: nat)
    | Settle(failed: bool, cancelled: bool, code: int, at: int)
    | Announce
    | CloseSubs
    | CloseDone

  /** Lines completed on stream k join the ring and the history, and their callbacks
      become due. */
  function Emit(j: Job, k: int, call: int, lines: seq<Text>, cur: Text): Job {
    var fired := Number(lines, k, j.ctr);
    var ring := Append(j.max, Ring(j, k), fired, cur);
    j.(out := if k == STDOUT then ring else j.out,
       err := if k == STDOUT then j.err else ring,
       ctr := j.ctr + |fired|,
       pend := j.pend + Callbacks(call, fired),
       log := j.log + fired)
  }

  /** Callbacks of one write run in order. */
  ghost predicate Due(j: Job, i: nat) {
    i < |j.pend| && forall q :: 0 <= q < i ==> j.pend[q].call != j.pend[i].call
  }

  /** A send into a subscriber's channel never waits: a full channel misses the line. */
  function Send(w: Watch, r: Rec): Watch {
    if |w.sent| - w.read < SUB_CAP then w.(sent := w.sent + [r]) else w.(missed := w.missed + [r])
  }

  function Fanout(h: Hub, r: Rec): Hub {
    if r.line == [] then h
    else h.(watches := seq(|h.watches|, i requires 0 <= i < |h.watches| =>
      if i in h.subs then Send(h.watches[i], r) else h.watches[i]))
  }

  function OfferAll(s: Sys, item: Item): Sys {
    if |s.w.ch| < CHANNEL_CAP
    then s.(w := Offer(s.w, item), h := s.h.(accepted := s.h.accepted + [item]))
    else s.(w := Offer(s.w, item), h := s.h.(lost := s.h.lost + [item]))
  }

  /** How the job's goroutine classifies a finished run. */
  function OutcomeOf(failed: bool, cancelled: bool, code: int): (JobState, int) {
    if failed then (Failed, code)
    else if cancelled then (Killed, code)
    else if code == 0 then (Done, 0)
    else (Failed, code)
  }

  /** A new subscriber's channel. */
  function Registered(h: Hub, w: Watch): Hub {
    h.(mid := Free, watches := h.watches + [w], subs := h.subs + [|h.watches|])
  }

  function Received(h: Hub, c: nat): Hub
    requires c < |h.watches|
  {
    h.(watches := h.watches[c := h.watches[c].(read := h.watches[c].read + 1)])
  }

  function Ended(h: Hub, failed: bool, cancelled: bool, code: int, at: int): Hub {
    var outcome := OutcomeOf(failed, cancelled, code);
    h.(phase := Settled, state := outcome.0, exitCode := outcome.1, finishedAt := at)
  }

  /** Every registered channel is closed and forgotten. */
  function Closing(h: Hub): Hub {
    h.(phase := SubsClosed, subs := [],
       watches := seq(|h.watches|, i requires 0 <= i < |h.watches| =>
         if i in h.subs then h.watches[i].(closed := true) else h.watches[i]))
  }

  ghost function UnpublishedSet(j: Job): set<Rec> {
    set q | q in j.pend && !q.published :: q.rec
  }

  ghost predicate Enabled(s: Sys, l: Label) {
    match l
    case Chunk(k, _, _) => k in {STDOUT, STDERR}
    case Flush(k, _) => k in {STDOUT, STDERR}
    case Publish(i) => Due(s.job, i) && !s.job.pend[i].published
                       && (s.job.pend[i].rec.line == [] || s.hub.mid.Free?)
    case Enqueue(i) => Due(s.job, i) && s.job.pend[i].published
    case OtherItem(item) => item.job != s.job.id
    case OtherRow(other, _, _) => other != s.job.id
    case Take => CanReceive(s.w)
    case Store(n) => n <= |s.w.batch|
    case Finish(_) => CanFinalize(s.w)
    case Retain(_) => true
    case CopyOut => s.hub.mid.Free?
    case CopyErr => s.hub.mid.GotOut?
    case Register => s.hub.mid.GotBoth?
    case Drain(c) => c < |s.hub.watches| && s.hub.watches[c].read < |s.hub.watches[c].sent|
    case Settle(_, _, _, _) => s.hub.phase == Working
    case Announce => s.hub.phase == Settled
    case CloseSubs => s.hub.phase == Announced && s.hub.mid.Free?
    case CloseDone => s.hub.phase == SubsClosed
  }

  ghost function Next(s: Sys, l: Label): Sys
    requires Enabled(s, l)
  {
    match l
    case Chunk(k, call, p) =>
      var b := Ring(s.job, k);
      s.(job := Emit(s.job, k, call, Completed(b.cur, p), Partial(b.cur, p)))
    case Flush(k, call) => s.(job := Emit(s.job, k, call, Pending(Ring(s.job, k)), []))
    case Publish(i) =>
      s.(job := s.job.(pend := s.job.pend[i := s.job.pend[i].(published := true)]),
         hub := Fanout(s.hub, s.job.pend[i].rec))
    case Enqueue(i) =>
      var r := s.job.pend[i].rec;
      OfferAll(s.(job := s.job.(pend := s.job.pend[..i] + s.job.pend[i + 1..], offered := s.job.offered + [r])),
               LineItem(s.job.id, r))
    case OtherItem(item) => OfferAll(s, item)
    case OtherRow(other, command, startedAt) =>
      s.(w := s.w.(db := NewRow(s.w.db, other, command, startedAt)),
         h := s.h.(ops := s.h.ops + [Inserted(other, command, startedAt)]))
    case Take => s.(w := Receive(s.w))
    case Store(n) =>
      s.(w := Commit(s.w, n),
         h := s.h.(ops := s.h.ops + AsOps(s.w.batch[..n]),
                   failed := s.h.failed + if n < |s.w.batch| then 1 else 0))
    case Finish(ok) =>
      s.(w := Finalize(s.w, ok),
         h := if ok then s.h.(ops := s.h.ops + [Wrote(s.w.hand.value)]) else s.h.(failed := s.h.failed + 1))
    case Retain(cutoff) =>
      s.(w := s.w.(db := Retained(s.w.db, cutoff)), h := s.h.(ops := s.h.ops + [Trim(cutoff)]))
    case CopyOut => s.(hub := s.hub.(mid := GotOut(s.job.out.recs, s.job.out.dropped)))
    case CopyErr =>
      s.(hub := s.hub.(mid := GotBoth(s.hub.mid.out + s.job.err.recs, s.hub.mid.gone0, s.job.err.dropped)))
    case Register =>
      if s.hub.phase == DoneClosed then s.(hub := s.hub.(mid := Free))
      else
        var w := Watch(s.hub.mid.both, s.hub.mid.gone0, s.hub.mid.gone1, [], [], 0, false, UnpublishedSet(s.job), s.job.ctr);
        s.(hub := Registered(s.hub, w))
    case Drain(c) => s.(hub := Received(s.hub, c))
    case Settle(failed, cancelled, code, at) => s.(hub := Ended(s.hub, failed, cancelled, code, at))
    case Announce =>
      OfferAll(s.(hub := s.hub.(phase := Announced)),
               FinItem(s.job.id, Fin(s.hub.state, s.hub.exitCode, s.hub.finishedAt)))
    case CloseSubs => s.(hub := Closing(s.hub))
    case CloseDone => s.(hub := s.hub.(phase := DoneClosed))
  }

  /** A run takes s to t by the given steps. */
  ghost predicate Path(s: Sys, ls: seq<Label>, t: Sys)
    decreases |ls|
  {
    if ls == [] then s == t
    else Enabled(s, ls[0]) && Path(Next(s, ls[0]), ls[1..], t)
  }

  lemma {:induction false} PathSnoc(s: Sys, ls: seq<Label>, t: Sys, l: Label)
    requires Path(s, ls, t) && Enabled(t, l)
    ensures Path(s, ls + [l], Next(t, l))
    decreases |ls|
  {
    if ls == [] {
      assert ls + [l] == [l] && [l][1..] == [];
    } else {
      PathSnoc(Next(s, ls[0]), ls[1..], t, l);
      assert (ls + [l])[0] == ls[0] && (ls + [l])[1..] == ls[1..] + [l];
    }
  }

  /** A job about to run, over tables that hold none of its lines; whether its own row
      was inserted is left open. */
  ghost predicate Initial(s: Sys) {
    && s.job.max > 0
    && s.job == Job(s.job.id, s.job.max, Buf([], [], 0), Buf([], [], 0), 0, [], [], [])
    && s.hub == Hub([], [], Free, Working, Running, 0, 0)
    && s.w.hand.None? && |s.w.ch| <= CHANNEL_CAP
    && (forall item :: item in s.w.batch ==> item.LineItem?)
    && (forall item :: item in s.w.batch + s.w.ch ==> item.job != s.job.id)
    && s.h == History(s.w.db, s.w.batch + s.w.ch, [], [], 0)
    && (forall k :: k in s.w.db.lines ==> k.job != s.job.id)
  }

  // ===== buffers: numbering and rings =====

  ghost predicate JobInv(j: Job) {
    && j.max > 0
    && Numbered(j.log) && j.ctr == |j.log|
    && Window(j.max, j.out, Keep(j.log, STDOUT))
    && Window(j.max, j.err, Keep(j.log, STDERR))
    && multiset(PendRecs(j.pend)) + multiset(j.offered) == multiset(j.log)
  }

  lemma KeepFired(log: seq<Rec>, fired: seq<Rec>, k: int, o: int)
    requires k != o && k >= 0 && o >= 0 && forall r :: r in fired ==> r.stream == k
    ensures Keep(log + fired, k) == Keep(log, k) + fired
    ensures Keep(log + fired, o) == Keep(log, o)
  {
    KeepAppend(log, fired, k);
    KeepAppend(log, fired, o);
    KeepAll(fired, k);
    KeepNone(fired, o);
  }

  lemma PendAppend(ps: seq<Pend>, fired: seq<Rec>, call: int)
    ensures PendRecs(ps + Callbacks(call, fired)) == PendRecs(ps) + fired
  {
  }

  lemma NumberedAppend(log: seq<Rec>, lines: seq<Text>, k: int)
    requires Numbered(log) && k in {STDOUT, STDERR}
    ensures Numbered(log + Number(lines, k, |log|))
  {
  }

  lemma EmitInv(j: Job, k: int, call: int, lines: seq<Text>, cur: Text)
    requires JobInv(j) && k in {STDOUT, STDERR}
    ensures JobInv(Emit(j, k, call, lines, cur))
    ensures Emit(j, k, call, lines, cur).log == j.log + Number(lines, k, j.ctr)
  {
    var fired := Number(lines, k, j.ctr);
    assert forall r :: r in fired ==> r.stream == k;
    NumberedAppend(j.log, lines, k);
    PendAppend(j.pend, fired, call);
    WindowAppend(j.max, Ring(j, k), Keep(j.log, k), fired, cur);
    if k == STDOUT { KeepFired(j.log, fired, STDOUT, STDERR); } else { KeepFired(j.log, fired, STDERR, STDOUT); }
  }

  lemma RemoveAt(rs: seq<Rec>, i: nat)
    requires i < |rs|
    ensures multiset(rs[..i] + rs[i + 1..]) + multiset{rs[i]} == multiset(rs)
  {
    assert rs == rs[..i] + [rs[i]] + rs[i + 1..];
  }

  lemma EnqueueInv(j: Job, i: nat)
    requires JobInv(j) && i < |j.pend|
    ensures JobInv(j.(pend := j.pend[..i] + j.pend[i + 1..], offered := j.offered + [j.pend[i].rec]))
  {
    var rs := PendRecs(j.pend);
    RemoveAt(rs, i);
    assert PendRecs(j.pend[..i] + j.pend[i + 1..]) == rs[..i] + rs[i + 1..];
  }

  lemma PublishInv(j: Job, i: nat)
    requires JobInv(j) && i < |j.pend|
    ensures JobInv(j.(pend := j.pend[i := j.pend[i].(published := true)]))
  {
    assert PendRecs(j.pend[i := j.pend[i].(published := true)]) == PendRecs(j.pend);
  }

  /** Each ring is its stream's history without the lines counted as dropped. */
  lemma RingFacts(j: Job, k: int)
    requires JobInv(j) && k in {STDOUT, STDERR}
    ensures Ring(j, k).dropped <= |Keep(j.log, k)| && Ring(j, k).recs == Keep(j.log, k)[Ring(j, k).dropped..]
    ensures RingOf(Ring(j, k).recs, j.log, k)
  {
    WindowIsSuffix(j.max, Ring(j, k), Keep(j.log, k));
    SuffixIsRing(j.log, k, Ring(j, k).dropped, Ring(j, k).recs);
  }

  lemma JobStep(s: Sys, l: Label)
    requires JobInv(s.job) && Enabled(s, l)
    ensures JobInv(Next(s, l).job)
    ensures s.job.log <= Next(s, l).job.log
    ensures s.job.id == Next(s, l).job.id && s.job.max == Next(s, l).job.max
  {
    match l
    case Chunk(k, call, p) =>
      var b := Ring(s.job, k);
      EmitInv(s.job, k, call, Completed(b.cur, p), Partial(b.cur, p));
    case Flush(k, call) => EmitInv(s.job, k, call, Pending(Ring(s.job, k)), []);
    case Publish(i) => PublishInv(s.job, i);
    case Enqueue(i) => EnqueueInv(s.job, i);
    case _ => JobUntouched(s, l);
  }

  lemma JobUntouched(s: Sys, l: Label)
    requires Enabled(s, l) && !l.Chunk? && !l.Flush? && !l.Publish? && !l.Enqueue?
    ensures Next(s, l).job == s.job
  {
  }

  /** A step that feeds bytes does to its buffer what the buffer's write does, and a flush
      what its flush does; the other buffer is untouched and the callbacks that fire fall due. */
  lemma ChunkIsWrite(s: Sys, k: int, call: int, p: Text)
    requires k in {STDOUT, STDERR}
    ensures var b, t := Ring(s.job, k), Next(s, Chunk(k, call, p));
            var fired := Fired(k, b, s.job.ctr, p);
            && Ring(t.job, k) == WriteTo(s.job.max, k, b, s.job.ctr, p)
            && Ring(t.job, STDERR - k) == Ring(s.job, STDERR - k)
            && t.job.log == s.job.log + fired && t.job.pend == s.job.pend + Callbacks(call, fired)
            && t.job.ctr == s.job.ctr + |fired| && t.hub == s.hub && t.w == s.w && t.h == s.h
    ensures var b, t := Ring(s.job, k), Next(s, Flush(k, call));
            var fired := Number(Pending(b), k, s.job.ctr);
            && Ring(t.job, k) == FlushOf(s.job.max, k, b, s.job.ctr)
            && Ring(t.job, STDERR - k) == Ring(s.job, STDERR - k)
            && t.job.log == s.job.log + fired && t.job.pend == s.job.pend + Callbacks(call, fired)
            && t.job.ctr == s.job.ctr + |fired| && t.hub == s.hub && t.w == s.w && t.h == s.h
  {
  }

  // ===== one write in several steps, and the two buffers interleaved =====

  lemma CallbacksAppend(call: int, a: seq<Rec>, b: seq<Rec>)
    ensures Callbacks(call, a + b) == Callbacks(call, a) + Callbacks(call, b)
  {
  }

  lemma EmitTwice(j: Job, k: int, call: int, a: seq<Text>, mid: Text, b: seq<Text>, cur: Text)
    requires k in {STDOUT, STDERR} && |Ring(j, k).recs| <= j.max
    ensures Emit(Emit(j, k, call, a, mid), k, call, b, cur) == Emit(j, k, call, a + b, cur)
  {
    NumberAppend(a, b, k, j.ctr);
    var fa, fb := Number(a, k, j.ctr), Number(b, k, j.ctr + |a|);
    AppendTwice(j.max, Ring(j, k), fa, mid, fb, cur);
    CallbacksAppend(call, fa, fb);
    assert j.pend + Callbacks(call, fa) + Callbacks(call, fb) == j.pend + Callbacks(call, fa + fb);
    assert j.log + fa + fb == j.log + (fa + fb);
  }

  /** Bytes of one call may reach the buffer in one step or in several: with nothing in
      between it makes no difference, and with steps of the other buffer in between the
      steps are the interleavings that two buffers sharing one counter allow. */
  lemma ChunkTwice(s: Sys, k: int, call: int, p: Text, q: Text)
    requires k in {STDOUT, STDERR} && |Ring(s.job, k).recs| <= s.job.max
    ensures Next(Next(s, Chunk(k, call, p)), Chunk(k, call, q)) == Next(s, Chunk(k, call, p + q))
  {
    var cur := Ring(s.job, k).cur;
    FeedAppend(cur, p, q);
    EmitTwice(s.job, k, call, Completed(cur, p), Partial(cur, p),
              Completed(Partial(cur, p), q), Partial(Partial(cur, p), q));
  }

  /** The lines one step completes on stream k, whose partial line is cur. */
  function LinesBy(cur: Text, l: Label, k: int): seq<Text> {
    if l.Chunk? && l.k == k then Completed(cur, l.p)
    else if l.Flush? && l.k == k && cur != [] then [cur]
    else []
  }

  function PartialBy(cur: Text, l: Label, k: int): Text {
    if l.Chunk? && l.k == k then Partial(cur, l.p)
    else if l.Flush? && l.k == k then []
    else cur
  }

  /** The lines that the steps of a run complete on stream k. */
  function CompletedBy(cur: Text, ls: seq<Label>, k: int): seq<Text>
    decreases |ls|
  {
    if ls == [] then [] else LinesBy(cur, ls[0], k) + CompletedBy(PartialBy(cur, ls[0], k), ls[1..], k)
  }

  /** The bytes a run feeds to stream k. */
  function BytesTo(ls: seq<Label>, k: int): Text {
    if ls == [] then []
    else if ls[0].Chunk? && ls[0].k == k then ls[0].p + BytesTo(ls[1..], k)
    else BytesTo(ls[1..], k)
  }

  lemma LinesAppend(a: seq<Rec>, b: seq<Rec>)
    ensures Lines(a + b) == Lines(a) + Lines(b)
  {
  }

  lemma EmitLines(j: Job, k: int, call: int, lines: seq<Text>, cur: Text, o: int)
    requires k in {STDOUT, STDERR} && o in {STDOUT, STDERR}
    ensures var j' := Emit(j, k, call, lines, cur);
            && Lines(Keep(j'.log, o)) == Lines(Keep(j.log, o)) + (if o == k then lines else [])
            && Ring(j', o).cur == if o == k then cur else Ring(j, o).cur
  {
    var fired := Number(lines, k, j.ctr);
    assert forall r :: r in fired ==> r.stream == k;
    KeepFired(j.log, fired, k, STDERR - k);
    LinesAppend(Keep(j.log, k), fired);
    assert Lines(fired) == lines;
  }

  /** Splitting is per stream: in every run, whatever the other buffer and the callbacks do
      in between, the lines of a stream are those its own bytes and flushes complete. */
  lemma {:induction false} SplitAcrossRuns(s: Sys, ls: seq<Label>, t: Sys, k: int)
    requires Path(s, ls, t) && k in {STDOUT, STDERR}
    ensures Lines(Keep(t.job.log, k)) == Lines(Keep(s.job.log, k)) + CompletedBy(Ring(s.job, k).cur, ls, k)
    decreases |ls|
  {
    if ls != [] {
      var l, rest, n := ls[0], ls[1..], Next(s, ls[0]);
      SplitStep(s, l, k);
      SplitAcrossRuns(n, rest, t, k);
      var cur := Ring(s.job, k).cur;
      Assoc(Lines(Keep(s.job.log, k)), LinesBy(cur, l, k), CompletedBy(PartialBy(cur, l, k), rest, k));
    }
  }

  lemma SplitStep(s: Sys, l: Label, k: int)
    requires Enabled(s, l) && k in {STDOUT, STDERR}
    ensures var cur, t := Ring(s.job, k).cur, Next(s, l);
            && Lines(Keep(t.job.log, k)) == Lines(Keep(s.job.log, k)) + LinesBy(cur, l, k)
            && Ring(t.job, k).cur == PartialBy(cur, l, k)
  {
    match l
    case Chunk(o, call, p) =>
      var b := Ring(s.job, o);
      EmitLines(s.job, o, call, Completed(b.cur, p), Partial(b.cur, p), k);
    case Flush(o, call) => EmitLines(s.job, o, call, Pending(Ring(s.job, o)), [], k);
    case Publish(i) =>
    case Enqueue(i) =>
    case _ => JobUntouched(s, l);
  }

  /** Without a flush, only the concatenation of a stream's bytes matters. */
  lemma {:induction false} OnlyBytesMatter(cur: Text, ls: seq<Label>, k: int)
    requires forall l :: l in ls ==> !l.Flush?
    ensures CompletedBy(cur, ls, k) == Completed(cur, BytesTo(ls, k))
    decreases |ls|
  {
    if ls != [] {
      assert ls[0] in ls;
      if ls[0].Chunk? && ls[0].k == k {
        FeedAppend(cur, ls[0].p, BytesTo(ls[1..], k));
        OnlyBytesMatter(Partial(cur, ls[0].p), ls[1..], k);
      } else {
        OnlyBytesMatter(cur, ls[1..], k);
      }
    }
  }
}
