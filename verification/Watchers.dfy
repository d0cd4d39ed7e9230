/** Live subscribers: what they are given, what they are sent, and when they end. */
module Watchers {
  import opened Recs
  import opened LineSpec
  import opened Merge
  import opened Listing
  import opened Pipeline

  // ----- invariants -----

  /** r was no longer in its ring when the rings were copied. */
  ghost predicate EvictedBy(log: seq<Rec>, r: Rec, gone0: nat, gone1: nat) {
    var kept, gone := Keep(log, r.stream), if r.stream == STDOUT then gone0 else gone1;
    gone <= |kept| && r in kept[..gone]
  }

  ghost predicate NoGap(j: Job, w: Watch) {
    forall r :: r in j.log && r.line != [] ==>
      Unpublished(j, r) || r in w.sent || r in w.missed || r in w.copied || EvictedBy(j.log, r, w.gone0, w.gone1)
  }

  /** Whatever was published since registration was offered. */
  ghost predicate AllOffered(j: Job, w: Watch) {
    forall r :: r in j.log && r.line != [] && (r in w.unpub || r.seqno > w.mark) ==>
      Unpublished(j, r) || r in w.sent || r in w.missed
  }

  /** Each line is sent or missed once, and only after it was published. */
  ghost predicate Once(j: Job, w: Watch) {
    && (forall r :: multiset(w.sent)[r] + multiset(w.missed)[r] <= 1)
    && (forall r :: r in w.sent || r in w.missed ==> r in j.log && !Unpublished(j, r))
  }

  /** Lines offered after registration are exactly those not yet published by then. */
  ghost predicate Later(j: Job, w: Watch) {
    && w.mark <= j.ctr
    && (forall r :: r in w.copied ==> r.seqno <= w.mark)
    && (forall r :: r in w.sent || r in w.missed || Unpublished(j, r) ==> r.seqno > w.mark || r in w.unpub)
    && w.read <= |w.sent| <= w.read + SUB_CAP
  }

  ghost predicate WatchInv(j: Job, w: Watch) {
    Once(j, w) && Later(j, w)
  }

  ghost predicate MidInv(j: Job, mid: Mid) {
    match mid
    case Free => true
    case GotOut(out, gone0) =>
      && (forall r :: r in out ==> r in j.log)
      && (forall r :: r in j.log && r.line != [] && r.stream == STDOUT ==>
            Unpublished(j, r) || r in out || EvictedBy(j.log, r, gone0, 0))
    case GotBoth(both, gone0, gone1) =>
      && (forall r :: r in both ==> r in j.log)
      && (forall r :: r in j.log && r.line != [] ==>
            Unpublished(j, r) || r in both || EvictedBy(j.log, r, gone0, gone1))
  }

  /** Every channel ever made is either still registered and open, or closed. */
  ghost predicate SubsInv(h: Hub) {
    && (forall i :: i in h.subs ==> i < |h.watches|)
    && (forall a, b :: 0 <= a < b < |h.subs| ==> h.subs[a] != h.subs[b])
    && (forall i :: 0 <= i < |h.watches| ==> (i in h.subs <==> !h.watches[i].closed))
    && (h.phase == Working <==> h.state == Running)
    && ((exists i :: 0 <= i < |h.watches| && h.watches[i].closed) ==> h.phase in {SubsClosed, DoneClosed})
  }

  ghost predicate HubInv(s: Sys) {
    && JobInv(s.job)
    && SubsInv(s.hub)
    && MidInv(s.job, s.hub.mid)
    && (forall i :: 0 <= i < |s.hub.watches| ==> WatchInv(s.job, s.hub.watches[i]))
    && (forall i :: i in s.hub.subs ==> NoGap(s.job, s.hub.watches[i]) && AllOffered(s.job, s.hub.watches[i]))
  }

  // ----- steps of the job that do not publish -----

  /** Nothing is published: old lines keep their status, new lines are unpublished. */
  ghost predicate Quiet(j: Job, j': Job) {
    && j.log <= j'.log && Numbered(j'.log) && j.ctr == |j.log| <= j'.ctr
    && (forall r :: Unpublished(j, r) ==> Unpublished(j', r))
    && (forall r :: Unpublished(j', r) ==> Unpublished(j, r) || r.seqno > j.ctr)
    && (forall r :: r in j'.log && r !in j.log ==> Unpublished(j', r))
  }

  lemma UnpubAppend(ps: seq<Pend>, call: int, fired: seq<Rec>, r: Rec)
    ensures Unpub(ps + Callbacks(call, fired), r) <==> Unpub(ps, r) || r in fired
  {
    var more := Callbacks(call, fired);
    if r in fired {
      var i :| 0 <= i < |fired| && fired[i] == r;
      assert more[i] in ps + more && !more[i].published;
    }
    if Unpub(ps, r) {
      var q :| q in ps && q.rec == r && !q.published;
      assert q in ps + more;
    }
    if Unpub(ps + more, r) {
      var q :| q in ps + more && q.rec == r && !q.published;
      if q in more { var i :| 0 <= i < |more| && more[i] == q; }
    }
  }

  lemma EmitQuiet(j: Job, k: int, call: int, lines: seq<Text>, cur: Text)
    requires JobInv(j) && k in {STDOUT, STDERR}
    ensures Quiet(j, Emit(j, k, call, lines, cur))
  {
    EmitInv(j, k, call, lines, cur);
    var fired := Number(lines, k, j.ctr);
    forall r ensures Unpublished(Emit(j, k, call, lines, cur), r) <==> Unpublished(j, r) || r in fired {
      UnpubAppend(j.pend, call, fired, r);
    }
  }

  lemma UnpubRemove(ps: seq<Pend>, i: nat, r: Rec)
    requires i < |ps| && ps[i].published
    ensures Unpub(ps[..i] + ps[i + 1..], r) <==> Unpub(ps, r)
  {
    assert ps == ps[..i] + [ps[i]] + ps[i + 1..];
    if Unpub(ps, r) {
      var q :| q in ps && q.rec == r && !q.published;
      assert q in ps[..i] + ps[i + 1..];
    }
  }

  lemma EnqueueQuiet(j: Job, i: nat)
    requires JobInv(j) && i < |j.pend| && j.pend[i].published
    ensures Quiet(j, j.(pend := j.pend[..i] + j.pend[i + 1..], offered := j.offered + [j.pend[i].rec]))
  {
    forall r ensures Unpub(j.pend[..i] + j.pend[i + 1..], r) <==> Unpub(j.pend, r) {
      UnpubRemove(j.pend, i, r);
    }
  }

  lemma EvictedGrows(log: seq<Rec>, more: seq<Rec>, r: Rec, gone0: nat, gone1: nat)
    requires log <= more && EvictedBy(log, r, gone0, gone1)
    ensures EvictedBy(more, r, gone0, gone1)
  {
    KeepPrefix(log, more, r.stream);
    var gone := if r.stream == STDOUT then gone0 else gone1;
    assert Keep(more, r.stream)[..gone] == Keep(log, r.stream)[..gone];
  }

  lemma QuietWatch(j: Job, j': Job, w: Watch)
    requires Quiet(j, j') && WatchInv(j, w) && Numbered(j.log)
    ensures WatchInv(j', w)
  {
  }

  lemma QuietGap(j: Job, j': Job, w: Watch)
    requires Quiet(j, j') && NoGap(j, w) && AllOffered(j, w)
    ensures NoGap(j', w) && AllOffered(j', w)
  {
    forall r | r in j'.log && r.line != []
      ensures Unpublished(j', r) || r in w.sent || r in w.missed || r in w.copied || EvictedBy(j'.log, r, w.gone0, w.gone1)
    {
      if r in j.log && EvictedBy(j.log, r, w.gone0, w.gone1) {
        EvictedGrows(j.log, j'.log, r, w.gone0, w.gone1);
      }
    }
  }

  lemma QuietMid(j: Job, j': Job, mid: Mid)
    requires Quiet(j, j') && MidInv(j, mid)
    ensures MidInv(j', mid)
  {
    if !mid.Free? {
      var gone1 := if mid.GotOut? then 0 else mid.gone1;
      forall r | r in j.log && EvictedBy(j.log, r, mid.gone0, gone1) ensures EvictedBy(j'.log, r, mid.gone0, gone1) {
        EvictedGrows(j.log, j'.log, r, mid.gone0, gone1);
      }
    }
  }

  // ----- publishing -----

  /** x goes from due to published and nothing else changes. */
  ghost predicate Publishes(j: Job, j': Job, x: Rec) {
    && j'.log == j.log && j'.ctr == j.ctr && x in j.log
    && Unpublished(j, x)
    && (forall r :: Unpublished(j', r) <==> Unpublished(j, r) && r != x)
  }

  lemma PendOnce(j: Job, a: nat, b: nat)
    requires JobInv(j) && a < b < |j.pend|
    ensures j.pend[a].rec != j.pend[b].rec
  {
    var rs := PendRecs(j.pend);
    OneEachOfDistinct(j.log);
    assert rs == rs[..b] + rs[b..];
    assert rs[..b][a] == rs[a] && rs[b..][0] == rs[b];
    assert multiset(rs)[rs[a]] <= multiset(j.log)[rs[a]] <= 1;
    assert rs[a] in rs[..b] && rs[b] in rs[b..];
  }

  lemma PublishJob(j: Job, i: nat)
    requires JobInv(j) && i < |j.pend| && !j.pend[i].published
    ensures Publishes(j, j.(pend := j.pend[i := j.pend[i].(published := true)]), j.pend[i].rec)
  {
    var x := j.pend[i].rec;
    var ps := j.pend[i := j.pend[i].(published := true)];
    assert j.pend[i] in j.pend;
    assert PendRecs(j.pend)[i] in multiset(PendRecs(j.pend));
    assert x in multiset(j.log);
    forall r ensures Unpub(ps, r) <==> Unpub(j.pend, r) && r != x {
      if Unpub(ps, r) {
        var q :| q in ps && q.rec == r && !q.published;
        var k :| 0 <= k < |ps| && ps[k] == q;
        assert j.pend[k] == q;
        if k < i { PendOnce(j, k, i); } else { PendOnce(j, i, k); }
      }
      if Unpub(j.pend, r) && r != x {
        var q :| q in j.pend && q.rec == r && !q.published;
        var k :| 0 <= k < |j.pend| && j.pend[k] == q;
        assert ps[k] == q;
      }
    }
  }

  lemma CountSnoc(rs: seq<Rec>, x: Rec, r: Rec)
    ensures multiset(rs + [x])[r] == multiset(rs)[r] + if r == x then 1 else 0
  {
    assert multiset(rs + [x]) == multiset(rs) + multiset{x};
  }

  lemma PublishOnce(j: Job, j': Job, w: Watch, x: Rec)
    requires Publishes(j, j', x) && Once(j, w)
    ensures Once(j', w) && Once(j', Send(w, x))
  {
    assert x !in w.sent && x !in w.missed;
    var w' := Send(w, x);
    forall r ensures multiset(w'.sent)[r] + multiset(w'.missed)[r] <= 1 {
      CountSnoc(w.sent, x, r);
      CountSnoc(w.missed, x, r);
    }
  }

  lemma PublishWatch(j: Job, j': Job, w: Watch, x: Rec)
    requires Publishes(j, j', x) && WatchInv(j, w)
    ensures WatchInv(j', w) && WatchInv(j', Send(w, x))
  {
    PublishOnce(j, j', w, x);
  }

  lemma PublishGap(j: Job, j': Job, w: Watch, x: Rec)
    requires Publishes(j, j', x) && NoGap(j, w) && AllOffered(j, w)
    ensures NoGap(j', Send(w, x)) && AllOffered(j', Send(w, x))
    ensures x.line == [] ==> NoGap(j', w) && AllOffered(j', w)
  {
    assert x in Send(w, x).sent || x in Send(w, x).missed;
  }

  lemma PublishStep(s: Sys, i: nat)
    requires HubInv(s) && Enabled(s, Publish(i))
    ensures HubInv(Next(s, Publish(i)))
  {
    var t := Next(s, Publish(i));
    var x := s.job.pend[i].rec;
    PublishJob(s.job, i);
    PublishInv(s.job, i);
    forall c | 0 <= c < |s.hub.watches| ensures WatchInv(t.job, t.hub.watches[c]) {
      PublishWatch(s.job, t.job, s.hub.watches[c], x);
    }
    forall c | c in s.hub.subs ensures NoGap(t.job, t.hub.watches[c]) && AllOffered(t.job, t.hub.watches[c]) {
      PublishGap(s.job, t.job, s.hub.watches[c], x);
    }
    SameSubs(s.hub, t.hub);
  }

  /** Steps that keep the registrations and every channel's state. */
  lemma SameSubs(h: Hub, h': Hub)
    requires SubsInv(h) && h'.subs == h.subs && h'.phase == h.phase && h'.state == h.state
    requires |h'.watches| == |h.watches|
    requires forall c :: 0 <= c < |h.watches| ==> h'.watches[c].closed == h.watches[c].closed
    ensures SubsInv(h')
  {
  }

  // ----- subscribing -----

  lemma RingOrEvicted(j: Job, r: Rec, gone0: nat, gone1: nat)
    requires JobInv(j) && r in j.log
    requires if r.stream == STDOUT then gone0 == j.out.dropped else gone1 == j.err.dropped
    ensures r in Ring(j, r.stream).recs || EvictedBy(j.log, r, gone0, gone1)
  {
    StreamsOnly(j.log, r);
    RingFacts(j, r.stream);
    var kept, d := Keep(j.log, r.stream), Ring(j, r.stream).dropped;
    assert kept == kept[..d] + kept[d..];
  }

  lemma StreamsOnly(log: seq<Rec>, r: Rec)
    requires Numbered(log) && r in log
    ensures r.stream in {STDOUT, STDERR} && r in Keep(log, r.stream)
  {
    var i :| 0 <= i < |log| && log[i] == r;
  }

  lemma CopyOutStep(s: Sys)
    requires HubInv(s) && Enabled(s, CopyOut)
    ensures HubInv(Next(s, CopyOut))
  {
    RingFacts(s.job, STDOUT);
    forall r | r in s.job.log && r.stream == STDOUT
      ensures r in s.job.out.recs || EvictedBy(s.job.log, r, s.job.out.dropped, 0)
    {
      RingOrEvicted(s.job, r, s.job.out.dropped, 0);
    }
    SameSubs(s.hub, Next(s, CopyOut).hub);
  }

  lemma CopyErrStep(s: Sys)
    requires HubInv(s) && Enabled(s, CopyErr)
    ensures HubInv(Next(s, CopyErr))
  {
    RingFacts(s.job, STDERR);
    var both, gone0, gone1 := s.hub.mid.out + s.job.err.recs, s.hub.mid.gone0, s.job.err.dropped;
    forall r | r in s.job.log && r.line != []
      ensures Unpublished(s.job, r) || r in both || EvictedBy(s.job.log, r, gone0, gone1)
    {
      if r.stream != STDOUT {
        var i :| 0 <= i < |s.job.log| && s.job.log[i] == r;
        RingOrEvicted(s.job, r, gone0, gone1);
      }
    }
    SameSubs(s.hub, Next(s, CopyErr).hub);
  }

  lemma UnpublishedSetExact(j: Job)
    ensures forall r :: r in UnpublishedSet(j) <==> Unpublished(j, r)
  {
  }

  /** A subscriber starts with the replay and nothing sent. */
  lemma NewWatch(j: Job, w: Watch, mid: Mid)
    requires JobInv(j) && mid.GotBoth? && MidInv(j, mid)
    requires w == Watch(mid.both, mid.gone0, mid.gone1, [], [], 0, false, UnpublishedSet(j), j.ctr)
    ensures WatchInv(j, w) && NoGap(j, w) && AllOffered(j, w)
  {
    UnpublishedSetExact(j);
    forall r | r in j.log ensures r.seqno <= j.ctr {
      var i :| 0 <= i < |j.log| && j.log[i] == r;
    }
  }

  lemma SubsGrow(h: Hub, h': Hub, w: Watch)
    requires SubsInv(h) && !w.closed
    requires h' == h.(mid := h'.mid, watches := h.watches + [w], subs := h.subs + [|h.watches|])
    ensures SubsInv(h')
  {
    forall a | 0 <= a < |h.subs| ensures h.subs[a] < |h.watches| {
      assert h.subs[a] in h.subs;
    }
  }

  lemma RegisterStep(s: Sys)
    requires HubInv(s) && Enabled(s, Register)
    ensures HubInv(Next(s, Register))
  {
    var t := Next(s, Register);
    if s.hub.phase == DoneClosed {
      SameSubs(s.hub, t.hub);
    } else {
      var w := t.hub.watches[|s.hub.watches|];
      NewWatch(s.job, w, s.hub.mid);
      SubsGrow(s.hub, t.hub, w);
    }
  }

  // ----- every step -----

  lemma QuietStep(s: Sys, t: Sys)
    requires HubInv(s) && Quiet(s.job, t.job) && JobInv(t.job) && t.hub == s.hub
    ensures HubInv(t)
  {
    forall c | 0 <= c < |s.hub.watches| ensures WatchInv(t.job, t.hub.watches[c]) {
      QuietWatch(s.job, t.job, s.hub.watches[c]);
    }
    forall c | c in s.hub.subs ensures NoGap(t.job, t.hub.watches[c]) && AllOffered(t.job, t.hub.watches[c]) {
      QuietGap(s.job, t.job, s.hub.watches[c]);
    }
    QuietMid(s.job, t.job, s.hub.mid);
  }

  lemma CloseSubsStep(s: Sys)
    requires HubInv(s) && Enabled(s, CloseSubs)
    ensures HubInv(Next(s, CloseSubs))
    ensures forall c :: 0 <= c < |s.hub.watches| ==> Next(s, CloseSubs).hub.watches[c].closed
  {
    var t := Next(s, CloseSubs);
    forall c | 0 <= c < |s.hub.watches| ensures WatchInv(t.job, t.hub.watches[c]) && t.hub.watches[c].closed {
      assert t.hub.watches[c] == s.hub.watches[c].(closed := true);
      assert WatchInv(s.job, s.hub.watches[c]);
    }
  }

  /** Only the goroutine's progress and outcome move. */
  lemma PhaseStep(s: Sys, t: Sys)
    requires HubInv(s) && t.job == s.job
    requires t.hub == s.hub.(phase := t.hub.phase, state := t.hub.state, exitCode := t.hub.exitCode, finishedAt := t.hub.finishedAt)
    requires t.hub.phase == Working <==> t.hub.state == Running
    requires s.hub.phase in {SubsClosed, DoneClosed} ==> t.hub.phase in {SubsClosed, DoneClosed}
    ensures HubInv(t)
  {
  }

  lemma HubStep(s: Sys, l: Label)
    requires HubInv(s) && Enabled(s, l)
    ensures HubInv(Next(s, l))
  {
    match l
    case Chunk(k, call, p) =>
      var b := Ring(s.job, k);
      EmitQuiet(s.job, k, call, Completed(b.cur, p), Partial(b.cur, p));
      EmitInv(s.job, k, call, Completed(b.cur, p), Partial(b.cur, p));
      QuietStep(s, Next(s, l));
    case Flush(k, call) =>
      EmitQuiet(s.job, k, call, Pending(Ring(s.job, k)), []);
      EmitInv(s.job, k, call, Pending(Ring(s.job, k)), []);
      QuietStep(s, Next(s, l));
    case Enqueue(i) =>
      EnqueueQuiet(s.job, i);
      EnqueueInv(s.job, i);
      QuietStep(s, Next(s, l));
    case Publish(i) => PublishStep(s, i);
    case CopyOut => CopyOutStep(s);
    case CopyErr => CopyErrStep(s);
    case Register => RegisterStep(s);
    case CloseSubs => CloseSubsStep(s);
    case Drain(c) => DrainStep(s, c);
    case _ => OtherStep(s, l);
  }

  lemma OtherStep(s: Sys, l: Label)
    requires HubInv(s) && Enabled(s, l)
    requires l.OtherItem? || l.OtherRow? || l.Take? || l.Store? || l.Finish? || l.Retain? || l.Settle? || l.Announce? || l.CloseDone?
    ensures HubInv(Next(s, l))
  {
    JobUntouched(s, l);
    PhaseStep(s, Next(s, l));
  }

  lemma DrainStep(s: Sys, c: nat)
    requires HubInv(s) && Enabled(s, Drain(c))
    ensures HubInv(Next(s, Drain(c)))
  {
    SameSubs(s.hub, Next(s, Drain(c)).hub);
  }

  lemma HubStart(s: Sys)
    requires Initial(s)
    ensures HubInv(s)
  {
  }

  lemma {:induction false} HubRun(s: Sys, ls: seq<Label>, t: Sys)
    requires HubInv(s) && Path(s, ls, t)
    ensures HubInv(t)
    decreases |ls|
  {
    if ls != [] {
      HubStep(s, ls[0]);
      HubRun(Next(s, ls[0]), ls[1..], t);
    }
  }

  // ----- what a subscriber gets -----

  /** No gap and no surprise: for a registered subscriber, every non-empty line completed
      so far is in the replay it was given, or had left its ring before the copy, or has
      been offered to its channel once, or still waits to be published. Among published
      lines, those seen both in the replay and in the channel are exactly those in the
      replay whose publication came after registration. */
  lemma WatcherSeesAll(s0: Sys, ls: seq<Label>, t: Sys, c: nat, r: Rec)
    requires Initial(s0) && Path(s0, ls, t) && c in t.hub.subs
    requires r in t.job.log && r.line != []
    ensures c < |t.hub.watches|
    ensures var w := t.hub.watches[c];
            && (|| r in w.copied || EvictedBy(t.job.log, r, w.gone0, w.gone1)
                || r in w.sent || r in w.missed || Unpublished(t.job, r))
            && multiset(w.sent)[r] + multiset(w.missed)[r] <= 1
            && (!Unpublished(t.job, r) ==>
                  ((r in w.copied && (r in w.sent || r in w.missed)) <==> (r in w.copied && r in w.unpub)))
  {
    HubStart(s0);
    HubRun(s0, ls, t);
  }

  /** A line is missed only when it is published while 256 lines wait unread in the
      channel: the run passes through that state and takes that step. */
  lemma MissedMeansFull(s: Sys, ls: seq<Label>, t: Sys, c: nat, r: Rec) returns (l1: seq<Label>, u: Sys, i: nat)
    requires HubInv(s) && Path(s, ls, t)
    requires c < |t.hub.watches| && r in t.hub.watches[c].missed
    requires c < |s.hub.watches| ==> r !in s.hub.watches[c].missed
    ensures l1 + [Publish(i)] <= ls && Path(s, l1, u)
    ensures i < |u.job.pend| && u.job.pend[i].rec == r
    ensures c < |u.hub.watches| && |u.hub.watches[c].sent| - u.hub.watches[c].read == SUB_CAP
  {
    l1, u, i := WhenMissed(s, ls, t, c, r);
    HubRun(s, l1, u);
    assert WatchInv(u.job, u.hub.watches[c]);
  }

  lemma {:induction false} WhenMissed(s: Sys, ls: seq<Label>, t: Sys, c: nat, r: Rec) returns (l1: seq<Label>, u: Sys, i: nat)
    requires Path(s, ls, t)
    requires c < |t.hub.watches| && r in t.hub.watches[c].missed
    requires c < |s.hub.watches| ==> r !in s.hub.watches[c].missed
    ensures l1 + [Publish(i)] <= ls && Path(s, l1, u)
    ensures i < |u.job.pend| && u.job.pend[i].rec == r
    ensures c < |u.hub.watches| && |u.hub.watches[c].sent| - u.hub.watches[c].read >= SUB_CAP
    decreases |ls|
  {
    var next := Next(s, ls[0]);
    if c < |next.hub.watches| && r in next.hub.watches[c].missed {
      MissedNow(s, ls[0], c, r);
      return [], s, ls[0].i;
    }
    var rest;
    rest, u, i := WhenMissed(next, ls[1..], t, c, r);
    l1 := [ls[0]] + rest;
    assert l1[1..] == rest && ls == [ls[0]] + ls[1..];
    assert l1 + [Publish(i)] == [ls[0]] + (rest + [Publish(i)]);
  }

  lemma MissedNow(s: Sys, l: Label, c: nat, r: Rec)
    requires Enabled(s, l)
    requires c < |s.hub.watches| ==> r !in s.hub.watches[c].missed
    requires c < |Next(s, l).hub.watches| && r in Next(s, l).hub.watches[c].missed
    ensures l.Publish? && s.job.pend[l.i].rec == r
    ensures c < |s.hub.watches| && |s.hub.watches[c].sent| - s.hub.watches[c].read >= SUB_CAP
  {
  }

  // ----- how subscriptions end -----

  /** In every reachable state: a line about to be published goes to open channels only,
      and closing the subscriptions closes only open channels, each once, after which every
      channel made so far is closed. */
  lemma ChannelsSafe(s0: Sys, ls: seq<Label>, t: Sys)
    requires Initial(s0) && Path(s0, ls, t)
    ensures forall c :: c in t.hub.subs ==> c < |t.hub.watches| && !t.hub.watches[c].closed
    ensures forall a, b :: 0 <= a < b < |t.hub.subs| ==> t.hub.subs[a] != t.hub.subs[b]
    ensures Enabled(t, CloseSubs) ==>
              forall c :: 0 <= c < |t.hub.watches| ==> Next(t, CloseSubs).hub.watches[c].closed
  {
    HubStart(s0);
    HubRun(s0, ls, t);
    if Enabled(t, CloseSubs) { CloseSubsStep(t); }
  }

  /** Publishing a line reaches the registered channels only: each that has fewer than 256
      lines unread gets it last, each other registered one misses it, and every channel else,
      closed ones among them, stays as it is; an empty line reaches none. */
  lemma PublishReaches(t: Sys, i: nat, c: nat)
    requires HubInv(t) && Enabled(t, Publish(i)) && c < |t.hub.watches|
    ensures var u, r, w := Next(t, Publish(i)), t.job.pend[i].rec, t.hub.watches[c];
            && |u.hub.watches| == |t.hub.watches| && u.hub.subs == t.hub.subs
            && u.hub.watches[c] == if w.closed || r.line == [] then w
                                   else if |w.sent| - w.read < 256 then w.(sent := w.sent + [r])
                                   else w.(missed := w.missed + [r])
  {
  }

  lemma {:induction false} OutcomeFixed(s: Sys, ls: seq<Label>, t: Sys)
    requires Path(s, ls, t) && s.hub.phase != Working
    ensures t.hub.phase != Working
    ensures t.hub.state == s.hub.state && t.hub.exitCode == s.hub.exitCode && t.hub.finishedAt == s.hub.finishedAt
    decreases |ls|
  {
    if ls != [] {
      OutcomeFixed(Next(s, ls[0]), ls[1..], t);
    }
  }

  /** Whoever finds a channel or the job's done signal closed finds a terminal state, and
      reads then and ever after the same state and exit code: the terminal event carries
      the final one. */
  lemma TerminalBeforeClose(s0: Sys, ls: seq<Label>, t: Sys, more: seq<Label>, u: Sys)
    requires Initial(s0) && Path(s0, ls, t) && Path(t, more, u)
    requires t.hub.phase == DoneClosed || exists c :: 0 <= c < |t.hub.watches| && t.hub.watches[c].closed
    ensures t.hub.state != Running
    ensures u.hub.state == t.hub.state && u.hub.exitCode == t.hub.exitCode
  {
    HubStart(s0);
    HubRun(s0, ls, t);
    OutcomeFixed(t, more, u);
  }

  /** A channel registered after the subscriptions were closed is never closed. */
  lemma {:induction false} LateChannelStaysOpen(s: Sys, ls: seq<Label>, t: Sys, c: nat)
    requires HubInv(s) && Path(s, ls, t)
    requires s.hub.phase in {SubsClosed, DoneClosed} && c in s.hub.subs
    ensures t.hub.phase in {SubsClosed, DoneClosed}
    ensures c in t.hub.subs && c < |t.hub.watches| && !t.hub.watches[c].closed
    decreases |ls|
  {
    if ls != [] {
      HubStep(s, ls[0]);
      LateChannelStaysOpen(Next(s, ls[0]), ls[1..], t, c);
    }
  }

  /** The end of the stream: when the subscriptions are closed, every registered channel is
      closed, and the account of each non-empty line stands: in the replay, evicted before
      the copy, offered once, or not yet published. */
  lemma StreamEnds(s0: Sys, ls: seq<Label>, t: Sys, c: nat, r: Rec)
    requires Initial(s0) && Path(s0, ls, t) && Enabled(t, CloseSubs) && c in t.hub.subs
    requires r in t.job.log && r.line != []
    ensures var u := Next(t, CloseSubs);
            && c < |u.hub.watches|
            && var w := u.hub.watches[c];
               && w.closed
               && (|| r in w.copied || EvictedBy(u.job.log, r, w.gone0, w.gone1)
                   || r in w.sent || r in w.missed || Unpublished(u.job, r))
               && multiset(w.sent)[r] + multiset(w.missed)[r] <= 1
               && (!Unpublished(u.job, r) ==>
                     ((r in w.copied && (r in w.sent || r in w.missed)) <==> (r in w.copied && r in w.unpub)))
  {
    WatcherSeesAll(s0, ls, t, c, r);
    ClosingOnlyCloses(t, c);
  }

  lemma ClosingOnlyCloses(t: Sys, c: nat)
    requires Enabled(t, CloseSubs) && c < |t.hub.watches| && c in t.hub.subs
    ensures var u := Next(t, CloseSubs);
            u.job == t.job && c < |u.hub.watches| && u.hub.watches[c] == t.hub.watches[c].(closed := true)
  {
  }

  /** The channels made before the closing are closed, the later ones open. */
  ghost predicate ClosedUpTo(h: Hub, n: nat) {
    && h.phase in {SubsClosed, DoneClosed} && n <= |h.watches|
    && forall c :: 0 <= c < |h.watches| ==> (h.watches[c].closed <==> c < n)
  }

  lemma LateStep(s: Sys, l: Label, n: nat)
    requires ClosedUpTo(s.hub, n) && Enabled(s, l)
    ensures ClosedUpTo(Next(s, l).hub, n)
  {
  }

  lemma {:induction false} LateRun(s: Sys, ls: seq<Label>, t: Sys, n: nat)
    requires ClosedUpTo(s.hub, n) && Path(s, ls, t)
    ensures ClosedUpTo(t.hub, n)
    decreases |ls|
  {
    if ls != [] {
      LateStep(s, ls[0], n);
      LateRun(Next(s, ls[0]), ls[1..], t, n);
    }
  }

  /** In every state after the subscriptions were closed, a channel is closed if and only if
      it was registered before. */
  lemma ClosedExactly(s0: Sys, ls: seq<Label>, t: Sys, more: seq<Label>, v: Sys)
    requires Initial(s0) && Path(s0, ls, t) && Enabled(t, CloseSubs) && Path(Next(t, CloseSubs), more, v)
    ensures |t.hub.watches| <= |v.hub.watches|
    ensures forall c :: 0 <= c < |v.hub.watches| ==> (v.hub.watches[c].closed <==> c < |t.hub.watches|)
  {
    HubStart(s0);
    HubRun(s0, ls, t);
    CloseSubsStep(t);
    LateRun(Next(t, CloseSubs), more, v, |t.hub.watches|);
  }
}
