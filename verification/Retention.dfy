/** The hourly tick that trims the store and then the memory registry, among whatever
    jobs start, finish and get recorded around it. Times are milliseconds. */
module Retention {
  import opened Recs
  import opened Listing
  import opened StoreSpec

  const HOUR := 3_600_000
  const DAY := 24 * HOUR

  /** What memory holds of a job: the state is set before the finishing time, which is 0
      until then. */
  datatype Live = Live(state: JobState, finishedAt: int)

  /** pending: jobs registered whose row has not been tried; inserted: jobs whose row the
      database took; settled: the finish records handed to the writer; cut: the cutoff of
      the last trim of the store. */
  datatype Reg = Reg(db: Db, mem: map<JobId, Live>, pending: set<JobId>, inserted: set<JobId>,
                     settled: map<JobId, Fin>, clock: int, cut: int)

  /** A job is registered in memory first, then its row is tried; its run starts only
      after that, row or no row. */
  datatype Event =
    | Register(id: JobId)
    | Insert(id: JobId, command: string, at: int, ok: bool)
    | SetState(id: JobId, state: JobState)
    | SetTime(id: JobId, code: int, at: int)
    | Record(id: JobId)
    | Line(id: JobId, rec: Rec)
    | TrimStore(now: int)
    | PruneMemory(now: int)

  predicate Gone(l: Live, cutoff: int) {
    l.state != Running && l.finishedAt < cutoff
  }

  function Pruned(mem: map<JobId, Live>, cutoff: int): map<JobId, Live> {
    map id | id in mem && !Gone(mem[id], cutoff) :: mem[id]
  }

  /** Job identifiers are new. */
  predicate Unused(r: Reg, id: JobId) {
    id !in r.mem && id !in r.pending && id !in r.inserted && id !in r.settled && id !in r.db.rows
  }

  predicate Enabled(r: Reg, e: Event) {
    match e
    case Register(id) => Unused(r, id)
    case Insert(id, _, _, _) => id in r.pending
    case SetState(id, state) => id in r.mem && id !in r.pending && r.mem[id].state == Running && state != Running
    case SetTime(id, _, at) => id in r.mem && r.mem[id].state != Running && id !in r.settled && at > 0
    case Record(id) => id in r.settled
    case Line(_, _) => true
    case TrimStore(now) => now >= r.clock
    case PruneMemory(now) => now >= r.clock
  }

  function Next(r: Reg, e: Event): Reg
    requires Enabled(r, e)
  {
    match e
    case Register(id) => r.(mem := r.mem[id := Live(Running, 0)], pending := r.pending + {id})
    case Insert(id, command, at, ok) =>
      if ok then r.(db := NewRow(r.db, id, command, at), pending := r.pending - {id}, inserted := r.inserted + {id})
      else r.(pending := r.pending - {id})
    case SetState(id, state) => r.(mem := r.mem[id := Live(state, 0)])
    case SetTime(id, code, at) =>
      r.(mem := r.mem[id := Live(r.mem[id].state, at)], settled := r.settled[id := Fin(r.mem[id].state, code, at)])
    case Record(id) => r.(db := Put(r.db, FinItem(id, r.settled[id])))
    case Line(id, rec) => r.(db := Put(r.db, LineItem(id, rec)))
    case TrimStore(now) => r.(db := Retained(r.db, now - DAY), clock := now, cut := now - DAY)
    case PruneMemory(now) => r.(mem := Pruned(r.mem, now - HOUR), clock := now)
  }

  /** A job in memory whose row was inserted has it, still running or as settled, unless
      it finished before the last trim's cutoff; any other job in memory has none. */
  ghost predicate Tied(r: Reg, id: JobId)
    requires id in r.mem
  {
    var l := r.mem[id];
    && (l.state == Running ==> l.finishedAt == 0 && id !in r.settled)
    && (id in r.pending ==> id !in r.inserted && l.state == Running)
    && (id !in r.inserted ==> id !in r.db.rows)
    && (id in r.inserted && id !in r.settled ==> id in r.db.rows && r.db.rows[id].state == Running)
    && (id in r.settled ==>
          && l.finishedAt > 0 && r.settled[id].state == l.state != Running && r.settled[id].finishedAt == l.finishedAt
          && (id in r.db.rows ==> r.db.rows[id].state == Running || r.db.rows[id].finishedAt == l.finishedAt)
          && (id in r.inserted && id !in r.db.rows ==> l.finishedAt < r.cut))
  }

  ghost predicate Inv(r: Reg) {
    && (forall id :: id in r.mem ==> Tied(r, id))
    && r.cut <= r.clock - DAY
  }

  lemma Step(r: Reg, e: Event)
    requires Inv(r) && Enabled(r, e)
    ensures Inv(Next(r, e)) && r.clock <= Next(r, e).clock
  {
    var n := Next(r, e);
    forall id | id in n.mem ensures Tied(n, id) {
      if id in r.mem { assert Tied(r, id); }
    }
  }

  ghost predicate Path(r: Reg, es: seq<Event>, t: Reg)
    decreases |es|
  {
    if es == [] then r == t else Enabled(r, es[0]) && Path(Next(r, es[0]), es[1..], t)
  }

  lemma {:induction false} Run(r: Reg, es: seq<Event>, t: Reg)
    requires Inv(r) && Path(r, es, t)
    ensures Inv(t) && r.clock <= t.clock
    decreases |es|
  {
    if es != [] {
      Step(r, es[0]);
      Run(Next(r, es[0]), es[1..], t);
    }
  }

  /** A fresh worker over recovered tables. */
  ghost predicate Initial(r: Reg) {
    r.mem == map[] && r.pending == {} && r.inserted == {} && r.settled == map[] && r.cut <= r.clock - DAY
  }

  /** Trimming the store, at any point of any run: a job running in memory keeps its row if
      it ever got one, and a line stays exactly when its job's row does; so surviving jobs keep every line
      and no line is left without a job. */
  lemma TrimKeepsLiving(r: Reg, es: seq<Event>, t: Reg, now: int)
    requires Initial(r) && Path(r, es, t) && now >= t.clock
    ensures var u := Next(t, TrimStore(now));
            && (forall id :: id in t.mem && t.mem[id].state == Running && id in t.inserted ==>
                  id in t.db.rows && id in u.db.rows && u.db.rows[id] == t.db.rows[id])
            && (forall k :: k in u.db.lines <==> k in t.db.lines && k.job in u.db.rows)
            && (forall k :: k in u.db.lines ==> u.db.lines[k] == t.db.lines[k])
            && u.mem == t.mem
  {
    Run(r, es, t);
    forall id | id in t.mem && t.mem[id].state == Running && id in t.inserted
      ensures id in t.db.rows && !Expired(t.db.rows[id], now - DAY)
    {
      assert Tied(t, id);
    }
  }

  /** Pruning memory, at any point of any run: no running job is dropped, and a job that
      stays has its row if and only if the row was inserted; so memory never outlives the
      store past a tick. */
  lemma PruneFollowsStore(r: Reg, es: seq<Event>, t: Reg, now: int)
    requires Initial(r) && Path(r, es, t) && now >= t.clock
    ensures var u := Next(t, PruneMemory(now));
            && (forall id :: id in t.mem && t.mem[id].state == Running ==> id in u.mem)
            && (forall id :: id in u.mem ==> (id in u.db.rows <==> id in u.inserted))
            && u.db == t.db
  {
    Run(r, es, t);
    forall id | id in t.mem && !Gone(t.mem[id], now - HOUR) ensures id in t.db.rows <==> id in t.inserted {
      assert Tied(t, id);
    }
  }

  /** An hour's grace is given only once the finishing time is set: pruning keeps a
      finished job for its hour exactly when it does not fall between the two assignments. */
  lemma PruneGrace(r: Reg, es: seq<Event>, t: Reg, now: int, id: JobId)
    requires Initial(r) && Path(r, es, t) && now >= t.clock && now > HOUR
    requires id in t.mem && t.mem[id].state != Running
    requires id in t.settled ==> t.settled[id].finishedAt >= now - HOUR
    ensures id in Next(t, PruneMemory(now)).mem <==> id in t.settled
  {
    Run(r, es, t);
    assert Tied(t, id);
    if id !in t.settled {
      UnsetTime(r, es, t, id);
    }
  }

  lemma {:induction false} UnsetTime(r: Reg, es: seq<Event>, t: Reg, id: JobId)
    requires Path(r, es, t) && id in t.mem && id !in t.settled
    requires forall k :: k in r.mem && k !in r.settled ==> r.mem[k].finishedAt == 0
    ensures t.mem[id].finishedAt == 0
    decreases |es|
  {
    if es != [] {
      UnsetTime(Next(r, es[0]), es[1..], t, id);
    }
  }

  /** A tick between the two assignments: the job has just ended, and is gone from memory. */
  lemma DroppedAtOnce(r: Reg, id: JobId, now: int) returns (es: seq<Event>, t: Reg)
    requires Initial(r) && Unused(r, id) && now >= r.clock && now > HOUR
    ensures Path(r, es, t) && id in t.mem && t.mem[id].state == Done && id in t.db.rows
    ensures Enabled(t, PruneMemory(now)) && id !in Next(t, PruneMemory(now)).mem
  {
    var a, b, c := Register(id), Insert(id, "run", now, true), SetState(id, Done);
    t := Next(Next(Next(r, a), b), c);
    es := [a, b, c];
    var r1, r2 := Next(r, a), Next(Next(r, a), b);
    assert [c][1..] == [] && [b, c][1..] == [c] && es[1..] == [b, c];
    assert Path(r2, [c], t);
    assert Path(r1, [b, c], t);
  }

  /** A tick between registering a job and inserting its row finds it without one. */
  lemma NotYetInserted(r: Reg, id: JobId, now: int) returns (es: seq<Event>, t: Reg)
    requires Initial(r) && Unused(r, id) && now >= r.clock
    ensures Path(r, es, t) && Enabled(t, PruneMemory(now))
    ensures var u := Next(t, PruneMemory(now)); id in u.mem && id !in u.db.rows
  {
    t := Next(r, Register(id));
    es := [Register(id)];
    assert es[1..] == [];
  }

  /** A tick in its own numbers: a day for rows, an hour for memory. */
  lemma TickExact(r: Reg, now: int)
    requires now >= r.clock
    ensures forall id :: id in Next(r, TrimStore(now)).db.rows <==>
              id in r.db.rows && (r.db.rows[id].state == Running || r.db.rows[id].finishedAt <= 0
                                  || r.db.rows[id].finishedAt >= now - 86_400_000)
    ensures forall id :: id in Next(r, PruneMemory(now)).mem <==>
              id in r.mem && (r.mem[id].state == Running || r.mem[id].finishedAt >= now - 3_600_000)
    ensures forall id :: id in Next(r, PruneMemory(now)).mem ==> Next(r, PruneMemory(now)).mem[id] == r.mem[id]
  {
  }
}
