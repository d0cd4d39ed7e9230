/** Writers that wait for each call to return: their lines enter the queue in order, so
    that exact reads need no assumption about the queue. */
module Sequencing {
  import opened Recs
  import opened LineSpec
  import opened Listing
  import opened StoreSpec
  import opened Pipeline
  import opened Persistence
  import opened Reading

  predicate Feeds(l: Label, k: int) {
    (l.Chunk? || l.Flush?) && (k < 0 || l.k == k)
  }

  ghost predicate OneCall(ps: seq<Pend>, k: int, call: int) {
    forall p :: p in ps && Want(p.rec, k) ==> p.call == call
  }

  /** Every step that feeds a wanted stream finds no callbacks left of another call on one:
      in particular, all steps of one call, or calls made one after the other. */
  ghost predicate Sequential(s: Sys, ls: seq<Label>, k: int)
    decreases |ls|
  {
    ls == [] ||
    (Enabled(s, ls[0]) && (Feeds(ls[0], k) ==> OneCall(s.job.pend, k, ls[0].call)) && Sequential(Next(s, ls[0]), ls[1..], k))
  }

  /** No wanted line of the job was turned away by the queue. */
  ghost predicate NoneLost(s: Sys, k: int) {
    forall r :: LineItem(s.job.id, r) in s.h.lost ==> !Want(r, k)
  }

  ghost predicate SameCall(ps: seq<Pend>, k: int) {
    forall a, b :: 0 <= a < |ps| && 0 <= b < |ps| && Want(ps[a].rec, k) && Want(ps[b].rec, k) ==> ps[a].call == ps[b].call
  }

  /** Wanted lines wait for their callbacks in order, behind those already offered. */
  ghost predicate PendOrder(j: Job, k: int) {
    SameCall(j.pend, k) && Keep(j.offered, k) + Keep(PendRecs(j.pend), k) == Keep(j.log, k)
  }

  ghost predicate QueueOrder(s: Sys, k: int) {
    NoneLost(s, k) ==> Keep(Mine(s.h.accepted, s.job.id), k) == Keep(s.job.offered, k)
  }

  lemma KeepOne(r: Rec, k: int)
    ensures Keep([r], k) == if Want(r, k) then [r] else []
  {
    assert [r][..0] == [];
  }

  lemma EmitCalls(ps: seq<Pend>, k: int, o: int, call: int, fired: seq<Rec>)
    requires SameCall(ps, k) && (k < 0 || o == k ==> OneCall(ps, k, call))
    requires forall r :: r in fired ==> r.stream == o
    ensures SameCall(ps + Callbacks(call, fired), k)
  {
    var more := Callbacks(call, fired);
    forall a | 0 <= a < |more| && Want(more[a].rec, k) ensures (k < 0 || o == k) && more[a].call == call {
      assert more[a].rec in fired;
    }
  }

  lemma EmitOrder(j: Job, k: int, o: int, call: int, lines: seq<Text>, cur: Text)
    requires PendOrder(j, k) && (k < 0 || o == k ==> OneCall(j.pend, k, call))
    ensures PendOrder(Emit(j, o, call, lines, cur), k)
  {
    var fired := Number(lines, o, j.ctr);
    assert forall r :: r in fired ==> r.stream == o;
    EmitCalls(j.pend, k, o, call, fired);
    PendAppend(j.pend, fired, call);
    KeepAppend(PendRecs(j.pend), fired, k);
    KeepAppend(j.log, fired, k);
    Assoc(Keep(j.offered, k), Keep(PendRecs(j.pend), k), Keep(fired, k));
  }

  lemma Cancel(a: seq<Rec>, x: seq<Rec>, b: seq<Rec>)
    requires a == [] || x == []
    ensures a + x + b == x + (a + b)
  {
  }

  lemma Pull(a: seq<Rec>, x: Rec, b: seq<Rec>, k: int)
    requires Want(x, k) ==> Keep(a, k) == []
    ensures Keep(a + [x] + b, k) == Keep([x], k) + Keep(a + b, k)
  {
    var one, ax := [x], a + [x];
    KeepAppend(ax, b, k);
    KeepAppend(a, one, k);
    KeepAppend(a, b, k);
    KeepOne(x, k);
    Cancel(Keep(a, k), Keep(one, k), Keep(b, k));
  }

  lemma FirstWanted(rs: seq<Rec>, i: nat, k: int)
    requires i < |rs| && (Want(rs[i], k) ==> forall r :: r in rs[..i] ==> !Want(r, k))
    ensures Keep(rs, k) == Keep([rs[i]], k) + Keep(rs[..i] + rs[i + 1..], k)
  {
    var a, b := rs[..i], rs[i + 1..];
    assert rs == a + [rs[i]] + b;
    if Want(rs[i], k) {
      KeepNone(a, k);
    }
    Pull(a, rs[i], b, k);
  }

  /** The first wanted line that waits is the first one not yet offered. */
  lemma DueIsFirst(j: Job, i: nat, k: int)
    requires SameCall(j.pend, k) && Due(j, i) && Want(j.pend[i].rec, k)
    ensures forall r :: r in PendRecs(j.pend)[..i] ==> !Want(r, k)
  {
    var rs := PendRecs(j.pend);
    forall r | r in rs[..i] ensures !Want(r, k) {
      var q :| 0 <= q < i && rs[..i][q] == r;
      assert j.pend[q].call != j.pend[i].call;
    }
  }

  lemma RemoveCalls(ps: seq<Pend>, i: nat, k: int)
    requires SameCall(ps, k) && i < |ps|
    ensures SameCall(ps[..i] + ps[i + 1..], k)
  {
    var qs := ps[..i] + ps[i + 1..];
    forall a | 0 <= a < |qs| ensures qs[a] == ps[if a < i then a else a + 1] {
    }
  }

  lemma MoveOne(offered: seq<Rec>, rs: seq<Rec>, i: nat, k: int)
    requires i < |rs| && (Want(rs[i], k) ==> forall r :: r in rs[..i] ==> !Want(r, k))
    ensures Keep(offered + [rs[i]], k) + Keep(rs[..i] + rs[i + 1..], k) == Keep(offered, k) + Keep(rs, k)
  {
    FirstWanted(rs, i, k);
    KeepAppend(offered, [rs[i]], k);
    Assoc(Keep(offered, k), Keep([rs[i]], k), Keep(rs[..i] + rs[i + 1..], k));
  }

  lemma PendRemove(ps: seq<Pend>, i: nat)
    requires i < |ps|
    ensures PendRecs(ps[..i] + ps[i + 1..]) == PendRecs(ps)[..i] + PendRecs(ps)[i + 1..]
  {
  }

  lemma EnqueueOrder(j: Job, i: nat, k: int)
    requires PendOrder(j, k) && Due(j, i)
    ensures PendOrder(j.(pend := j.pend[..i] + j.pend[i + 1..], offered := j.offered + [j.pend[i].rec]), k)
  {
    if Want(j.pend[i].rec, k) { DueIsFirst(j, i, k); }
    MoveOne(j.offered, PendRecs(j.pend), i, k);
    RemoveCalls(j.pend, i, k);
    PendRemove(j.pend, i);
  }

  lemma PublishOrder(j: Job, i: nat, k: int)
    requires PendOrder(j, k) && i < |j.pend|
    ensures PendOrder(j.(pend := j.pend[i := j.pend[i].(published := true)]), k)
  {
    assert PendRecs(j.pend[i := j.pend[i].(published := true)]) == PendRecs(j.pend);
  }

  lemma OrderStep(s: Sys, l: Label, k: int)
    requires PendOrder(s.job, k) && Enabled(s, l) && (Feeds(l, k) ==> OneCall(s.job.pend, k, l.call))
    ensures PendOrder(Next(s, l).job, k)
  {
    match l
    case Chunk(o, call, p) =>
      var b := Ring(s.job, o);
      EmitOrder(s.job, k, o, call, Completed(b.cur, p), Partial(b.cur, p));
    case Flush(o, call) => EmitOrder(s.job, k, o, call, Pending(Ring(s.job, o)), []);
    case Publish(i) => PublishOrder(s.job, i, k);
    case Enqueue(i) => EnqueueOrder(s.job, i, k);
    case _ => JobUntouched(s, l);
  }

  // ----- from offered to accepted -----

  lemma MineSnoc(items: seq<Item>, item: Item, id: JobId)
    ensures Mine(items + [item], id) == Mine(items, id) + if item.LineItem? && item.job == id then [item.rec] else []
  {
    assert (items + [item])[..|items|] == items;
  }

  /** This job's part of one item. */
  function Own(item: Item, id: JobId): seq<Rec> {
    if item.LineItem? && item.job == id then [item.rec] else []
  }

  lemma TakenOrder(taken: seq<Item>, offered: seq<Rec>, item: Item, id: JobId, k: int)
    requires Keep(Mine(taken, id), k) == Keep(offered, k)
    ensures Keep(Mine(taken + [item], id), k) == Keep(offered + Own(item, id), k)
  {
    MineSnoc(taken, item, id);
    KeepAppend(Mine(taken, id), Own(item, id), k);
    KeepAppend(offered, Own(item, id), k);
  }

  lemma UnwantedOrder(offered: seq<Rec>, item: Item, id: JobId, k: int)
    requires forall r :: LineItem(id, r) == item ==> !Want(r, k)
    ensures Keep(offered + Own(item, id), k) == Keep(offered, k)
  {
    KeepAppend(offered, Own(item, id), k);
    if Own(item, id) != [] {
      assert item == LineItem(id, item.rec);
      KeepOne(item.rec, k);
    }
  }

  /** An item offered to the queue, with the job's own record of what it offered. */
  lemma OfferOrder(s: Sys, s1: Sys, item: Item, k: int)
    requires QueueOrder(s, k) && s1.job.id == s.job.id && s1.h == s.h
    requires s1.job.offered == s.job.offered + Own(item, s.job.id)
    ensures QueueOrder(OfferAll(s1, item), k)
  {
    var t, id := OfferAll(s1, item), s.job.id;
    assert forall x :: x in s.h.lost ==> x in t.h.lost;
    if NoneLost(t, k) {
      assert NoneLost(s, k);
      if |s1.w.ch| < CHANNEL_CAP {
        TakenOrder(s.h.accepted, s.job.offered, item, id, k);
      } else {
        assert item in t.h.lost;
        UnwantedOrder(s.job.offered, item, id, k);
      }
    }
  }

  lemma QueueStep(s: Sys, l: Label, k: int)
    requires QueueOrder(s, k) && Enabled(s, l)
    ensures QueueOrder(Next(s, l), k)
  {
    match l
    case Enqueue(i) =>
      var r := s.job.pend[i].rec;
      OfferOrder(s, s.(job := s.job.(pend := s.job.pend[..i] + s.job.pend[i + 1..], offered := s.job.offered + [r])),
                 LineItem(s.job.id, r), k);
    case OtherItem(item) => OfferOrder(s, s, item, k);
    case Announce =>
      OfferOrder(s, s.(hub := s.hub.(phase := Announced)),
                 FinItem(s.job.id, Fin(s.hub.state, s.hub.exitCode, s.hub.finishedAt)), k);
    case _ => QueueUntouched(s, l);
  }

  lemma QueueUntouched(s: Sys, l: Label)
    requires Enabled(s, l) && !l.Enqueue? && !l.OtherItem? && !l.Announce?
    ensures var t := Next(s, l);
            t.h.accepted == s.h.accepted && t.h.lost == s.h.lost && t.job.offered == s.job.offered && t.job.id == s.job.id
  {
  }

  lemma {:induction false} OrderRun(s: Sys, ls: seq<Label>, t: Sys, k: int)
    requires PendOrder(s.job, k) && QueueOrder(s, k) && Path(s, ls, t) && Sequential(s, ls, k)
    ensures PendOrder(t.job, k) && QueueOrder(t, k)
    decreases |ls|
  {
    if ls != [] {
      OrderStep(s, ls[0], k);
      QueueStep(s, ls[0], k);
      OrderRun(Next(s, ls[0]), ls[1..], t, k);
    }
  }

  lemma {:induction false} MineNone(items: seq<Item>, id: JobId)
    requires forall item :: item in items ==> item.job != id
    ensures Mine(items, id) == []
  {
    if items != [] {
      assert items[|items| - 1] in items;
      MineNone(items[..|items| - 1], id);
    }
  }

  /** A sequential writer's lines enter the queue in order: nothing else about the queue has
      to be assumed but that it turned none of them away. */
  lemma SequentialInOrder(s: Sys, ls: seq<Label>, t: Sys, k: int)
    requires Initial(s) && Path(s, ls, t) && Sequential(s, ls, k) && NoneLost(t, k)
    ensures InOrder(t, k)
  {
    MineNone(s.w.batch + s.w.ch, s.job.id);
    OrderRun(s, ls, t, k);
  }

  /** Exact reads of a sequentially written stream: with rows fetched in state q and the
      ring copied in a later state, whatever ran in between, the read is the stream's history
      at the copy if and only if the ring had by then evicted no more lines than the query
      returned. */
  lemma SequentialReadExact(s0: Sys, q: Sys, a: Sys, b: Sys, l0: seq<Label>, l1: seq<Label>, l2: seq<Label>, k: int)
    requires Reached(s0, q, a, b, l0, l1, l2) && k in {STDOUT, STDERR}
    requires Clean(q) && Sequential(s0, l0, k) && NoneLost(q, k)
    ensures k == STDOUT ==>
              (ReadAcross(q, a, b, k) == Keep(a.job.log, k) <==> a.job.out.dropped <= |Query(q, k)|)
    ensures k == STDERR ==>
              (ReadAcross(q, a, b, k) == Keep(b.job.log, k) <==> b.job.err.dropped <= |Query(q, k)|)
  {
    SequentialInOrder(s0, l0, q, k);
    ReadOneExact(s0, q, a, b, l0, l1, l2, k);
  }

  // ----- what subscribers receive, in order -----

  ghost predicate Ascends(ps: seq<Pend>, k: int) {
    forall a, b :: 0 <= a < b < |ps| && Want(ps[a].rec, k) && Want(ps[b].rec, k) ==> ps[a].rec.seqno < ps[b].rec.seqno
  }

  /** Wanted lines wait in order of their numbers. */
  ghost predicate WaitOrder(j: Job, k: int) {
    SameCall(j.pend, k) && Ascends(j.pend, k) && forall p :: p in j.pend ==> p.rec.seqno <= j.ctr
  }

  /** r was sent before any wanted line still to be published. */
  ghost predicate Before(r: Rec, ps: seq<Pend>, k: int) {
    forall p :: p in ps && Want(p.rec, k) && !p.published ==> r.seqno < p.rec.seqno
  }

  ghost predicate SentOrder(j: Job, w: Watch, k: int) {
    Increasing(Keep(w.sent, k)) && forall r :: r in Keep(w.sent, k) ==> r.seqno <= j.ctr && Before(r, j.pend, k)
  }

  ghost predicate AllInOrder(s: Sys, k: int) {
    WaitOrder(s.job, k) && forall c :: 0 <= c < |s.hub.watches| ==> SentOrder(s.job, s.hub.watches[c], k)
  }

  lemma EmitWaits(j: Job, k: int, o: int, call: int, lines: seq<Text>, cur: Text)
    requires WaitOrder(j, k) && (k < 0 || o == k ==> OneCall(j.pend, k, call))
    ensures WaitOrder(Emit(j, o, call, lines, cur), k)
  {
    var fired := Number(lines, o, j.ctr);
    EmitCalls(j.pend, k, o, call, fired);
    var all := j.pend + Callbacks(call, fired);
    forall a, b | 0 <= a < b < |all| && Want(all[a].rec, k) && Want(all[b].rec, k)
      ensures all[a].rec.seqno < all[b].rec.seqno
    {
      assert a < |j.pend| ==> all[a] in j.pend;
    }
  }

  lemma EmitSent(j: Job, k: int, o: int, call: int, lines: seq<Text>, cur: Text, w: Watch)
    requires SentOrder(j, w, k)
    ensures SentOrder(Emit(j, o, call, lines, cur), w, k)
  {
    var fired := Number(lines, o, j.ctr);
    forall p | p in Callbacks(call, fired) ensures p.rec.seqno > j.ctr {
    }
  }

  lemma RemoveWaits(j: Job, j': Job, i: nat, k: int)
    requires WaitOrder(j, k) && i < |j.pend| && j'.pend == j.pend[..i] + j.pend[i + 1..] && j'.ctr == j.ctr
    ensures WaitOrder(j', k) && forall p :: p in j'.pend ==> p in j.pend
  {
    RemoveCalls(j.pend, i, k);
    var qs := j'.pend;
    assert forall a :: 0 <= a < |qs| ==> qs[a] == j.pend[if a < i then a else a + 1];
  }

  /** A wanted line about to be published comes before every other one still waiting. */
  lemma DueIsLeast(j: Job, i: nat, k: int)
    requires WaitOrder(j, k) && Due(j, i) && Want(j.pend[i].rec, k)
    ensures var ps := j.pend[i := j.pend[i].(published := true)];
            Before(j.pend[i].rec, ps, k)
  {
    var ps := j.pend[i := j.pend[i].(published := true)];
    forall p | p in ps && Want(p.rec, k) && !p.published ensures j.pend[i].rec.seqno < p.rec.seqno {
      var q :| 0 <= q < |ps| && ps[q] == p;
      assert j.pend[q].rec == p.rec && j.pend[q].call == j.pend[i].call;
    }
  }

  lemma PublishWaits(j: Job, j': Job, i: nat, k: int)
    requires WaitOrder(j, k) && i < |j.pend| && j' == j.(pend := j.pend[i := j.pend[i].(published := true)])
    ensures WaitOrder(j', k)
    ensures forall r :: Before(r, j.pend, k) ==> Before(r, j'.pend, k)
  {
    forall p | p in j'.pend ensures p.rec.seqno <= j.ctr && (!p.published ==> p in j.pend) {
      var q :| 0 <= q < |j'.pend| && j'.pend[q] == p;
      assert j.pend[q] in j.pend;
    }
  }

  lemma IncreasingSnoc(rs: seq<Rec>, x: Rec)
    requires Increasing(rs) && forall r :: r in rs ==> r.seqno < x.seqno
    ensures Increasing(rs + [x])
  {
  }

  lemma PublishSent(j: Job, j': Job, i: nat, w: Watch, k: int)
    requires WaitOrder(j, k) && SentOrder(j, w, k) && i < |j.pend|
    requires j' == j.(pend := j.pend[i := j.pend[i].(published := true)])
    ensures SentOrder(j', w, k)
  {
    PublishWaits(j, j', i, k);
  }

  lemma SentSnoc(j: Job, w: Watch, w': Watch, x: Rec, k: int)
    requires SentOrder(j, w, k) && w'.sent == w.sent + [x]
    requires Want(x, k) ==> x.seqno <= j.ctr && Before(x, j.pend, k) && forall r :: r in Keep(w.sent, k) ==> r.seqno < x.seqno
    ensures SentOrder(j, w', k)
  {
    KeepAppend(w.sent, [x], k);
    KeepOne(x, k);
    if Want(x, k) {
      IncreasingSnoc(Keep(w.sent, k), x);
    }
  }

  lemma SendSent(j: Job, j': Job, i: nat, w: Watch, k: int)
    requires WaitOrder(j, k) && SentOrder(j, w, k) && Due(j, i) && !j.pend[i].published
    requires j' == j.(pend := j.pend[i := j.pend[i].(published := true)])
    ensures SentOrder(j', w, k) && SentOrder(j', Send(w, j.pend[i].rec), k)
  {
    var x := j.pend[i].rec;
    PublishSent(j, j', i, w, k);
    assert j.pend[i] in j.pend;
    if Want(x, k) {
      DueIsLeast(j, i, k);
    }
    if Send(w, x).sent != w.sent {
      SentSnoc(j', w, Send(w, x), x, k);
    }
  }

  lemma PublishInOrder(s: Sys, i: nat, k: int)
    requires AllInOrder(s, k) && Enabled(s, Publish(i))
    ensures AllInOrder(Next(s, Publish(i)), k)
  {
    var t := Next(s, Publish(i));
    PublishWaits(s.job, t.job, i, k);
    forall c | 0 <= c < |s.hub.watches| ensures SentOrder(t.job, t.hub.watches[c], k) {
      SendSent(s.job, t.job, i, s.hub.watches[c], k);
    }
  }

  lemma SameSent(s: Sys, t: Sys, k: int)
    requires AllInOrder(s, k) && WaitOrder(t.job, k) && t.job.ctr == s.job.ctr
    requires forall p :: p in t.job.pend ==> p in s.job.pend
    requires |s.hub.watches| <= |t.hub.watches|
    requires forall c :: 0 <= c < |t.hub.watches| ==> t.hub.watches[c].sent == if c < |s.hub.watches| then s.hub.watches[c].sent else []
    ensures AllInOrder(t, k)
  {
    forall c | 0 <= c < |t.hub.watches| ensures SentOrder(t.job, t.hub.watches[c], k) {
      assert c < |s.hub.watches| ==> SentOrder(s.job, s.hub.watches[c], k);
    }
  }

  lemma WaitStep(s: Sys, l: Label, k: int)
    requires AllInOrder(s, k) && Enabled(s, l) && (Feeds(l, k) ==> OneCall(s.job.pend, k, l.call))
    ensures AllInOrder(Next(s, l), k)
  {
    var t := Next(s, l);
    match l
    case Chunk(o, call, p) =>
      var b := Ring(s.job, o);
      EmitInOrder(s, t, k, o, call, Completed(b.cur, p), Partial(b.cur, p));
    case Flush(o, call) => EmitInOrder(s, t, k, o, call, Pending(Ring(s.job, o)), []);
    case Publish(i) => PublishInOrder(s, i, k);
    case Enqueue(i) =>
      RemoveWaits(s.job, t.job, i, k);
      SentUntouched(s, l);
      SameSent(s, t, k);
    case _ =>
      JobUntouched(s, l);
      SentUntouched(s, l);
      SameSent(s, t, k);
  }

  lemma EmitInOrder(s: Sys, t: Sys, k: int, o: int, call: int, lines: seq<Text>, cur: Text)
    requires AllInOrder(s, k) && (k < 0 || o == k ==> OneCall(s.job.pend, k, call))
    requires t.job == Emit(s.job, o, call, lines, cur) && t.hub == s.hub
    ensures AllInOrder(t, k)
  {
    EmitWaits(s.job, k, o, call, lines, cur);
    forall c | 0 <= c < |s.hub.watches| ensures SentOrder(t.job, t.hub.watches[c], k) {
      EmitSent(s.job, k, o, call, lines, cur, s.hub.watches[c]);
    }
  }

  /** Only publishing sends. */
  lemma SentUntouched(s: Sys, l: Label)
    requires Enabled(s, l) && !l.Publish?
    ensures var t := Next(s, l);
            |s.hub.watches| <= |t.hub.watches| &&
            forall c :: 0 <= c < |t.hub.watches| ==> t.hub.watches[c].sent == if c < |s.hub.watches| then s.hub.watches[c].sent else []
  {
  }

  lemma {:induction false} WaitRun(s: Sys, ls: seq<Label>, t: Sys, k: int)
    requires AllInOrder(s, k) && Path(s, ls, t) && Sequential(s, ls, k)
    ensures AllInOrder(t, k)
    decreases |ls|
  {
    if ls != [] {
      WaitStep(s, ls[0], k);
      WaitRun(Next(s, ls[0]), ls[1..], t, k);
    }
  }

  /** Every subscriber is sent the lines of a sequentially written stream in the order of
      their numbers, whatever it misses and whenever it joined. */
  lemma SubscriberOrder(s: Sys, ls: seq<Label>, t: Sys, k: int, c: nat)
    requires Initial(s) && Path(s, ls, t) && Sequential(s, ls, k) && c < |t.hub.watches|
    ensures Increasing(Keep(t.hub.watches[c].sent, k))
  {
    WaitRun(s, ls, t, k);
    assert SentOrder(t.job, t.hub.watches[c], k);
  }
}
