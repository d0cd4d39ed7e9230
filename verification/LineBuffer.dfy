/** Splitting raw output into numbered lines kept in a bounded ring. */
module LineSpec {
  import opened Recs

  // ----- what a stream of bytes means -----

  /** The unfinished line left after feeding p to a buffer holding cur. */
  function Partial(cur: Text, p: Text): Text {
    if p == [] then cur
    else
      var front, b := Partial(cur, p[..|p| - 1]), p[|p| - 1];
      if b == CR then front else if b == LF then [] else front + [b]
  }

  /** The lines completed by feeding p to a buffer holding cur. */
  function Completed(cur: Text, p: Text): seq<Text> {
    if p == [] then []
    else
      var front := Completed(cur, p[..|p| - 1]);
      if p[|p| - 1] == LF then front + [Partial(cur, p[..|p| - 1])] else front
  }

  lemma {:induction false} FeedAppend(cur: Text, a: Text, b: Text)
    ensures Partial(cur, a + b) == Partial(Partial(cur, a), b)
    ensures Completed(cur, a + b) == Completed(cur, a) + Completed(Partial(cur, a), b)
  {
    if b == [] {
      assert a + b == a;
    } else {
      FeedAppend(cur, a, b[..|b| - 1]);
      assert (a + b)[..|a + b| - 1] == a + b[..|b| - 1];
    }
  }

  lemma FeedByte(cur: Text, p: Text, b: byte)
    ensures Partial(cur, p + [b]) ==
            if b == CR then Partial(cur, p) else if b == LF then [] else Partial(cur, p) + [b]
    ensures Completed(cur, p + [b]) ==
            if b == LF then Completed(cur, p) + [Partial(cur, p)] else Completed(cur, p)
  {
    assert (p + [b])[..|p|] == p;
  }

  // ----- an independent reading: joining undoes splitting -----

  function StripCR(p: Text): Text {
    if p == [] then []
    else
      var front := StripCR(p[..|p| - 1]);
      if p[|p| - 1] == CR then front else front + [p[|p| - 1]]
  }

  /** Carriage returns, byte 13, are all that is removed, and everything else stays in order. */
  lemma {:induction false} StripExact(p: Text, q: Text)
    ensures StripCR(p + q) == StripCR(p) + StripCR(q)
    ensures 13 !in StripCR(p) && (13 !in q ==> StripCR(q) == q) && StripCR([13]) == []
  {
    assert [13 as byte][..0] == [];
    StripOnly(p);
    StripOnly(q);
    StripAppend(p, q);
  }

  lemma {:induction false} StripOnly(p: Text)
    ensures 13 !in StripCR(p) && (13 !in p ==> StripCR(p) == p)
  {
    if p != [] {
      assert p == p[..|p| - 1] + [p[|p| - 1]];
      StripOnly(p[..|p| - 1]);
    }
  }

  lemma {:induction false} StripAppend(p: Text, q: Text)
    ensures StripCR(p + q) == StripCR(p) + StripCR(q)
  {
    if q == [] {
      assert p + q == p;
    } else {
      StripAppend(p, q[..|q| - 1]);
      assert (p + q)[..|p + q| - 1] == p + q[..|q| - 1];
    }
  }

  /** Every line followed by a line feed. */
  function Unlines(ts: seq<Text>): Text {
    if ts == [] then [] else Unlines(ts[..|ts| - 1]) + ts[|ts| - 1] + [LF]
  }

  predicate OneLine(t: Text) {
    LF !in t
  }

  lemma UnlinesSnoc(ts: seq<Text>, t: Text)
    ensures Unlines(ts + [t]) == Unlines(ts) + t + [LF]
  {
    assert (ts + [t])[..|ts|] == ts;
  }

  /** The completed lines and the partial one, joined, are the input without its
      carriage returns; no line holds a line feed. */
  lemma {:induction false} SplitJoins(cur: Text, p: Text)
    requires OneLine(cur)
    ensures Unlines(Completed(cur, p)) + Partial(cur, p) == cur + StripCR(p)
    ensures OneLine(Partial(cur, p))
    ensures forall t :: t in Completed(cur, p) ==> OneLine(t)
  {
    if p != [] {
      var front, b := p[..|p| - 1], p[|p| - 1];
      SplitJoins(cur, front);
      var done, part := Completed(cur, front), Partial(cur, front);
      UnlinesSnoc(done, part);
      Assoc(Unlines(done), part, [b]);
      Assoc(cur, StripCR(front), [b]);
    }
  }

  lemma Assoc<T>(a: seq<T>, b: seq<T>, c: seq<T>)
    ensures (a + b) + c == a + (b + c)
  {
  }

  lemma UnlinesCons(t: Text, ts: seq<Text>)
    ensures Unlines([t] + ts) == t + [LF] + Unlines(ts)
  {
    if ts == [] {
      assert [t] + ts == [] + [t];
      UnlinesSnoc([], t);
    } else {
      var front, last := ts[..|ts| - 1], ts[|ts| - 1];
      UnlinesCons(t, front);
      assert [t] + ts == ([t] + front) + [last];
      UnlinesSnoc([t] + front, last);
      UnlinesSnoc(front, last);
      assert ts == front + [last];
    }
  }

  lemma UnlinesHead(ts: seq<Text>, t: Text)
    requires ts != []
    ensures Unlines(ts) + t == ts[0] + [LF] + (Unlines(ts[1..]) + t)
    ensures LF in Unlines(ts) + t
  {
    assert ts == [ts[0]] + ts[1..];
    UnlinesCons(ts[0], ts[1..]);
    Assoc(ts[0] + [LF], Unlines(ts[1..]), t);
    assert (ts[0] + [LF] + (Unlines(ts[1..]) + t))[|ts[0]|] == LF;
  }

  lemma FirstFeed(a: Text, x: Text, b: Text, y: Text)
    requires OneLine(a) && OneLine(b) && a + [LF] + x == b + [LF] + y
    ensures a == b && x == y
  {
    var w := a + [LF] + x;
    assert forall i :: 0 <= i < |a| ==> w[i] == a[i] != LF;
    assert forall i :: 0 <= i < |b| ==> w[i] == b[i] != LF;
    assert w[|a|] == LF && w[|b|] == LF;
    assert a == w[..|a|] && b == w[..|b|];
    assert x == w[|a| + 1..] && y == w[|b| + 1..];
  }

  /** Joining is injective: the split is the only one with these pieces. */
  lemma {:induction false} SplitUnique(ts: seq<Text>, t: Text, us: seq<Text>, u: Text)
    requires OneLine(t) && OneLine(u)
    requires forall x :: x in ts ==> OneLine(x)
    requires forall x :: x in us ==> OneLine(x)
    requires Unlines(ts) + t == Unlines(us) + u
    ensures ts == us && t == u
  {
    var whole := Unlines(ts) + t;
    if ts != [] { UnlinesHead(ts, t); } else { assert whole == t; }
    if us != [] { UnlinesHead(us, u); } else { assert whole == u; }
    assert ts == [] <==> us == [];
    if ts != [] {
      FirstFeed(ts[0], Unlines(ts[1..]) + t, us[0], Unlines(us[1..]) + u);
      SplitUnique(ts[1..], t, us[1..], u);
      assert ts == [ts[0]] + ts[1..] && us == [us[0]] + us[1..];
    }
  }

  lemma {:induction false} UnlinesAppend(a: seq<Text>, b: seq<Text>)
    ensures Unlines(a + b) == Unlines(a) + Unlines(b)
  {
    if b == [] {
      assert a + b == a;
    } else {
      var front, last := b[..|b| - 1], b[|b| - 1];
      UnlinesAppend(a, front);
      Assoc(a, front, [last]);
      assert b == front + [last];
      UnlinesSnoc(a + front, last);
      Assoc(Unlines(a), Unlines(front), last);
      Assoc(Unlines(a), Unlines(front) + last, [LF]);
    }
  }

  /** The lines and the partial one are the split of the text fed so far. */
  ghost predicate Splits(ts: seq<Text>, cur: Text, fed: Text) {
    Unlines(ts) + cur == fed && OneLine(cur) && forall t :: t in ts ==> OneLine(t)
  }

  lemma SplitsWrite(ts: seq<Text>, cur: Text, fed: Text, p: Text)
    requires Splits(ts, cur, fed)
    ensures Splits(ts + Completed(cur, p), Partial(cur, p), fed + StripCR(p))
  {
    SplitJoins(cur, p);
    UnlinesAppend(ts, Completed(cur, p));
    Assoc(Unlines(ts), Unlines(Completed(cur, p)), Partial(cur, p));
    Assoc(Unlines(ts), cur, StripCR(p));
  }

  lemma SplitsFlush(ts: seq<Text>, cur: Text, fed: Text)
    requires Splits(ts, cur, fed)
    ensures Splits(ts + [cur], [], fed + [LF])
  {
    UnlinesSnoc(ts, cur);
    assert Unlines(ts) + cur + [LF] + [] == fed + [LF];
  }

  // ----- the ring -----

  datatype Buf = Buf(recs: seq<Rec>, cur: Text, dropped: nat)

  /** Lines of one stream numbered n+1, n+2, ... */
  function Number(ts: seq<Text>, stream: int, n: int): (rs: seq<Rec>)
    ensures |rs| == |ts|
    ensures forall i :: 0 <= i < |ts| ==> rs[i] == Rec(n + 1 + i, stream, ts[i])
  {
    seq(|ts|, i requires 0 <= i < |ts| => Rec(n + 1 + i, stream, ts[i]))
  }

  lemma NumberAppend(xs: seq<Text>, ys: seq<Text>, stream: int, n: int)
    ensures Number(xs + ys, stream, n) == Number(xs, stream, n) + Number(ys, stream, n + |xs|)
  {
  }

  /** Adding completed lines keeps the newest max of them. */
  function Append(max: nat, b: Buf, fired: seq<Rec>, cur: Text): Buf {
    var all := b.recs + fired;
    Buf(Last(max, all), cur, b.dropped + |all| - |Last(max, all)|)
  }

  function WriteTo(max: nat, stream: int, b: Buf, n: int, p: Text): Buf {
    Append(max, b, Number(Completed(b.cur, p), stream, n), Partial(b.cur, p))
  }

  /** A flush completes a pending partial line; nothing happens without one. */
  function Pending(b: Buf): seq<Text> {
    if b.cur == [] then [] else [b.cur]
  }

  function FlushOf(max: nat, stream: int, b: Buf, n: int): Buf {
    Append(max, b, Number(Pending(b), stream, n), [])
  }

  /** The ring is the newest max of all lines ever completed; the rest were counted. */
  ghost predicate Window(max: nat, b: Buf, all: seq<Rec>) {
    b.recs == Last(max, all) && b.dropped + |b.recs| == |all|
  }

  lemma WindowAppend(max: nat, b: Buf, all: seq<Rec>, fired: seq<Rec>, cur: Text)
    requires Window(max, b, all)
    ensures Window(max, Append(max, b, fired, cur), all + fired)
  {
    assert Last(max, Last(max, all) + fired) == Last(max, all + fired);
  }

  lemma WindowIsSuffix(max: nat, b: Buf, all: seq<Rec>)
    requires Window(max, b, all)
    ensures b.dropped <= |all| && b.recs == all[b.dropped..]
    ensures |all| <= max ==> b.dropped == 0
    ensures b.dropped > 0 ==> |b.recs| == max
  {
  }

  lemma AppendTwice(max: nat, b: Buf, x: seq<Rec>, c: Text, y: seq<Rec>, d: Text)
    requires |b.recs| <= max
    ensures Append(max, Append(max, b, x, c), y, d) == Append(max, b, x + y, d)
  {
    assert Last(max, Last(max, b.recs + x) + y) == Last(max, b.recs + (x + y));
  }

  function Fired(stream: int, b: Buf, n: int, p: Text): seq<Rec> {
    Number(Completed(b.cur, p), stream, n)
  }

  /** Two writes leave the ring one write of the joined bytes would. */
  lemma WriteTwice(max: nat, stream: int, b: Buf, n: int, p: Text, q: Text, first: Buf, m: int)
    requires |b.recs| <= max
    requires first == WriteTo(max, stream, b, n, p) && m == n + |Fired(stream, b, n, p)|
    ensures WriteTo(max, stream, first, m, q) == WriteTo(max, stream, b, n, p + q)
    ensures Fired(stream, b, n, p) + Fired(stream, first, m, q) == Fired(stream, b, n, p + q)
  {
    var c := Partial(b.cur, p);
    FeedAppend(b.cur, p, q);
    var xs, ys := Completed(b.cur, p), Completed(c, q);
    NumberAppend(xs, ys, stream, n);
    AppendTwice(max, b, Number(xs, stream, n), c, Number(ys, stream, m), Partial(c, q));
  }

  lemma WriteNothing(max: nat, stream: int, b: Buf, n: int)
    requires |b.recs| <= max
    ensures WriteTo(max, stream, b, n, []) == b && Fired(stream, b, n, []) == []
  {
  }

  lemma SplitsFired(log: seq<Rec>, stream: int, b: Buf, n: int, p: Text, fed: Text)
    requires Splits(Lines(log), b.cur, fed)
    ensures Splits(Lines(log + Fired(stream, b, n, p)), Partial(b.cur, p), fed + StripCR(p))
  {
    SplitsWrite(Lines(log), b.cur, fed, p);
    assert Lines(log + Fired(stream, b, n, p)) == Lines(log) + Completed(b.cur, p);
  }

  /** One byte: ignored, a line completed, or the partial line grown. */
  lemma WriteByte(max: nat, stream: int, b: Buf, n: int, c: byte)
    requires |b.recs| <= max
    ensures c == CR ==> WriteTo(max, stream, b, n, [c]) == b && Fired(stream, b, n, [c]) == []
    ensures c == LF ==>
              && Fired(stream, b, n, [c]) == [Rec(n + 1, stream, b.cur)]
              && WriteTo(max, stream, b, n, [c]) == Append(max, b, [Rec(n + 1, stream, b.cur)], [])
    ensures c != CR && c != LF ==>
              WriteTo(max, stream, b, n, [c]) == b.(cur := b.cur + [c]) && Fired(stream, b, n, [c]) == []
  {
    FeedByte(b.cur, [], c);
    assert [] + [c] == [c];
    assert c == LF ==> Completed(b.cur, [c]) == [b.cur];
  }

  // ----- tails -----

  function Join(ts: seq<Text>): Text {
    if ts == [] then []
    else if |ts| == 1 then ts[0]
    else Join(ts[..|ts| - 1]) + [LF] + ts[|ts| - 1]
  }

  function Entries(rs: seq<Rec>, cur: Text): seq<Text> {
    Lines(rs) + if cur == [] then [] else [cur]
  }

  function TailOf(b: Buf, n: nat): Text {
    Join(Last(n, Entries(b.recs, b.cur)))
  }

  /** A tail no longer than the ring cannot see that lines were evicted. */
  lemma TailOfWindow(max: nat, b: Buf, all: seq<Rec>, n: nat)
    requires Window(max, b, all)
    requires n <= max || |all| <= max
    ensures TailOf(b, n) == Join(Last(n, Entries(all, b.cur)))
  {
    assert Last(n, Entries(b.recs, b.cur)) == Last(n, Entries(all, b.cur));
  }

  /** Lines joined are lines each followed by a line feed, without the last one. */
  lemma {:induction false} JoinIsUnlines(ts: seq<Text>)
    requires ts != []
    ensures Unlines(ts) == Join(ts) + [10]
  {
    var front := ts[..|ts| - 1];
    if front == [] {
      assert Unlines(front) == [];
      assert Unlines(ts) == [] + ts[0] + [LF];
    } else {
      JoinIsUnlines(front);
    }
  }

  /** A tail is the last n lines and counts a pending partial line as the last of them. */
  lemma TailCountsPartial(b: Buf, n: nat)
    requires n > 0
    ensures TailOf(b, n) == Join(if b.cur == [] then Last(n, Lines(b.recs)) else Last(n - 1, Lines(b.recs)) + [b.cur])
    ensures TailOf(b, 1) == if b.cur != [] then b.cur else if b.recs != [] then b.recs[|b.recs| - 1].line else []
    ensures TailOf(b, 0) == []
  {
    assert Last(n, Lines(b.recs) + [b.cur]) == Last(n - 1, Lines(b.recs)) + [b.cur];
    assert Lines(b.recs) + [] == Lines(b.recs);
    assert Last(0, Lines(b.recs)) + [b.cur] == [b.cur];
  }

  function Total(ts: seq<Text>): nat {
    if ts == [] then 0 else Total(ts[..|ts| - 1]) + 1 + |ts[|ts| - 1]|
  }

  lemma {:induction false} JoinLength(ts: seq<Text>)
    requires ts != []
    ensures |Join(ts)| + 1 == Total(ts)
  {
    if |ts| > 1 {
      JoinLength(ts[..|ts| - 1]);
    } else {
      assert Total(ts[..0]) == 0;
    }
  }

  lemma {:induction false} TotalSuffix(ts: seq<Text>, k: nat)
    requires k <= |ts|
    ensures Total(ts[k..]) + k <= Total(ts)
  {
    if k < |ts| {
      TotalSuffix(ts[..|ts| - 1], k);
      assert ts[k..][..|ts| - k - 1] == ts[..|ts| - 1][k..];
      assert ts[k..][|ts| - k - 1] == ts[|ts| - 1];
    } else {
      TotalAtLeast(ts);
    }
  }

  lemma {:induction false} TotalAtLeast(ts: seq<Text>)
    ensures Total(ts) >= |ts|
  {
    if ts != [] {
      TotalAtLeast(ts[..|ts| - 1]);
    }
  }

  /** Joining a shorter nonempty tail never gives the same text. */
  lemma JoinShorter(ts: seq<Text>, k: nat)
    requires 0 < k < |ts|
    ensures Join(ts[k..]) != Join(ts)
  {
    JoinLength(ts);
    JoinLength(ts[k..]);
    TotalSuffix(ts, k);
  }
}

/** The buffer as the program keeps it. */
module LineBuffers {
  import opened Recs
  import opened LineSpec

  /** The job's line counter, shared by its two buffers. */
  class Counter {
    var n: int

    constructor ()
      ensures n == 0
    {
      n := 0;
    }

    method Next() returns (s: int)
      modifies this
      ensures s == n == old(n) + 1
    {
      n := n + 1;
      s := n;
    }
  }

  class LineBuffer {
    const max: nat
    const stream: int
    const counter: Counter

    var recs: seq<Rec>
    var cur: Text
    var dropped: nat

    /** Every line ever completed, never evicted. */
    ghost var log: seq<Rec>
    /** The text fed so far: carriage returns removed, a line feed where a flush
        completed a partial line. */
    ghost var fed: Text

    ghost predicate Ring()
      reads this
    {
      max > 0 && Window(max, Contents(), log)
    }

    ghost predicate Valid()
      reads this
    {
      Ring() && Splits(Lines(log), cur, fed)
    }

    function Contents(): Buf
      reads this
    {
      Buf(recs, cur, dropped)
    }

    constructor (max: int, stream: int, counter: Counter)
      ensures Valid()
      ensures this.max == (if max <= 0 then 10000 else max)
      ensures this.stream == stream && this.counter == counter
      ensures Contents() == Buf([], [], 0) && log == [] && fed == []
    {
      this.max := if max <= 0 then 10000 else max;
      this.stream := stream;
      this.counter := counter;
      recs, cur, dropped, log, fed := [], [], 0, [], [];
    }

    /** Appends one line and evicts the oldest when the ring is over its size. */
    method Push(rec: Rec)
      requires Ring()
      modifies this`recs, this`dropped, this`log
      ensures Ring()
      ensures Contents() == Append(max, old(Contents()), [rec], cur)
      ensures log == old(log) + [rec]
    {
      WindowAppend(max, Contents(), log, [rec], cur);
      recs := recs + [rec];
      log := log + [rec];
      if |recs| > max {
        recs := recs[1..];
        dropped := dropped + 1;
      }
    }

    /** One turn of the byte loop. */
    method Accept(c: byte) returns (fired: seq<Rec>)
      requires Ring()
      modifies this`recs, this`cur, this`dropped, this`log, counter
      ensures Ring()
      ensures fired == Fired(stream, old(Contents()), old(counter.n), [c])
      ensures Contents() == WriteTo(max, stream, old(Contents()), old(counter.n), [c])
      ensures log == old(log) + fired
      ensures counter.n == old(counter.n) + |fired|
    {
      ghost var b, n := Contents(), counter.n;
      WriteByte(max, stream, b, n, c);
      fired := [];
      if c == CR {
      } else if c == LF {
        var rec := Promote();
        fired := [rec];
      } else {
        cur := cur + [c];
      }
    }

    /** Feeds bytes. `fired` is what the line callback receives, in order, once the
        buffer's lock is released. */
    method Write(p: Text) returns (fired: seq<Rec>)
      requires Valid()
      modifies this, counter
      ensures Valid()
      ensures fired == Fired(stream, old(Contents()), old(counter.n), p)
      ensures Contents() == WriteTo(max, stream, old(Contents()), old(counter.n), p)
      ensures log == old(log) + fired && fed == old(fed) + StripCR(p)
      ensures counter.n == old(counter.n) + |fired|
    {
      fired := [];
      ghost var b, n := Contents(), counter.n;
      WriteNothing(max, stream, b, n);
      assert p[..0] == [];
      var i := 0;
      while i < |p|
        invariant 0 <= i <= |p|
        invariant Ring()
        invariant fired == Fired(stream, b, n, p[..i])
        invariant Contents() == WriteTo(max, stream, b, n, p[..i])
        invariant log == old(log) + fired && fed == old(fed)
        invariant counter.n == n + |fired|
      {
        WriteTwice(max, stream, b, n, p[..i], [p[i]], Contents(), counter.n);
        assert p[..i + 1] == p[..i] + [p[i]];
        var more := Accept(p[i]);
        fired := fired + more;
        i := i + 1;
      }
      assert p[..|p|] == p;
      SplitsFired(old(log), stream, b, n, p, old(fed));
      fed := fed + StripCR(p);
    }

    /** Promotes a trailing partial line. */
    method FlushLine() returns (line: Text, fired: seq<Rec>)
      requires Valid()
      modifies this, counter
      ensures Valid()
      ensures fired == Number(Pending(old(Contents())), stream, old(counter.n))
      ensures Contents() == FlushOf(max, stream, old(Contents()), old(counter.n))
      ensures line == old(cur) && log == old(log) + fired
      ensures fed == old(fed) + if old(cur) == [] then [] else [LF]
      ensures counter.n == old(counter.n) + |fired|
    {
      if |cur| == 0 {
        return [], [];
      }
      SplitsFlush(Lines(log), cur, fed);
      var rec := Promote();
      fed := fed + [LF];
      return rec.line, [rec];
    }

    /** The partial line becomes a line of its own. */
    method Promote() returns (rec: Rec)
      requires Ring()
      modifies this`recs, this`cur, this`dropped, this`log, counter
      ensures Ring()
      ensures rec == Rec(old(counter.n) + 1, stream, old(cur)) && counter.n == old(counter.n) + 1
      ensures Contents() == Append(max, old(Contents()), [rec], [])
      ensures log == old(log) + [rec] && Lines(log) == Lines(old(log)) + [rec.line]
    {
      var s := counter.Next();
      rec := Rec(s, stream, cur);
      cur := [];
      Push(rec);
    }

    method Recs() returns (out: seq<Rec>)
      requires Valid()
      ensures out == Last(max, log)
    {
      out := recs;
    }

    method Dropped() returns (n: nat)
      requires Valid()
      ensures n == |log| - |Last(max, log)|
    {
      n := dropped;
    }

    /** The last n lines joined, counting a partial line as one. */
    method Tail(n: nat) returns (t: Text)
      requires Valid()
      ensures t == TailOf(Contents(), n)
      ensures n <= max || |log| <= max ==> t == Join(Last(n, Entries(log, cur)))
    {
      var lines := LastEntries(n);
      t := Join(lines);
      TailExact(n);
    }

    lemma TailExact(n: nat)
      requires Ring()
      ensures n <= max || |log| <= max ==> TailOf(Contents(), n) == Join(Last(n, Entries(log, cur)))
    {
      if n <= max || |log| <= max {
        TailOfWindow(max, Contents(), log, n);
      }
    }

    method LastEntries(n: nat) returns (lines: seq<Text>)
      ensures lines == Last(n, Entries(recs, cur))
    {
      lines := [];
      var i := 0;
      while i < |recs|
        invariant 0 <= i <= |recs|
        invariant lines == Lines(recs[..i])
      {
        lines := lines + [recs[i].line];
        i := i + 1;
      }
      assert recs[..|recs|] == recs;
      if cur != [] {
        lines := lines + [cur];
      }
      if |lines| > n {
        lines := lines[|lines| - n..];
      }
    }
  }
}
