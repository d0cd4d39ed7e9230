/** Completed output lines, the sequences of them that buffers, table and readers
    exchange, and the two facts every later proof rests on: a sequence whose numbers
    strictly increase is determined by its elements, and filtering by stream keeps
    order and prefixes. */
module Recs {
  newtype byte = b: int | 0 <= b < 256

  type Text = seq<byte>

  const CR: byte := 13
  const LF: byte := 10

  const STDOUT := 0
  const STDERR := 1

  /** One completed line. The stream is the one whose buffer holds the line; the
      line callbacks attach it when they hand the line to the store. */
  datatype Rec = Rec(seqno: int, stream: int, line: Text)

  /** A negative stream asks for every line. */
  predicate Want(r: Rec, s: int) {
    s < 0 || r.stream == s
  }

  function Keep(rs: seq<Rec>, s: int): (k: seq<Rec>)
    ensures forall r :: r in k <==> r in rs && Want(r, s)
  {
    if rs == [] then []
    else
      var front := Keep(rs[..|rs| - 1], s);
      var last := rs[|rs| - 1];
      assert rs == rs[..|rs| - 1] + [last];
      if Want(last, s) then front + [last] else front
  }

  predicate Increasing(rs: seq<Rec>) {
    forall i, j :: 0 <= i < j < |rs| ==> rs[i].seqno < rs[j].seqno
  }

  /** The last n elements, or all of them. */
  function Last<T>(n: nat, s: seq<T>): (r: seq<T>)
    ensures |r| == if |s| <= n then |s| else n
  {
    if |s| <= n then s else s[|s| - n..]
  }

  function Lines(rs: seq<Rec>): (ts: seq<Text>)
    ensures |ts| == |rs|
    ensures forall i :: 0 <= i < |rs| ==> ts[i] == rs[i].line
  {
    seq(|rs|, i requires 0 <= i < |rs| => rs[i].line)
  }

  // ----- sorting by number -----

  function Insert(r: Rec, rs: seq<Rec>): (out: seq<Rec>)
    ensures multiset(out) == multiset{r} + multiset(rs)
  {
    if rs == [] then [r]
    else if r.seqno <= rs[0].seqno then
      assert [r] + rs == [r] + rs[..];
      [r] + rs
    else
      assert rs == [rs[0]] + rs[1..];
      [rs[0]] + Insert(r, rs[1..])
  }

  function SortBySeq(rs: seq<Rec>): (out: seq<Rec>)
    ensures multiset(out) == multiset(rs)
  {
    if rs == [] then []
    else
      assert rs == [rs[0]] + rs[1..];
      Insert(rs[0], SortBySeq(rs[1..]))
  }

  predicate Ordered(rs: seq<Rec>) {
    forall i, j :: 0 <= i < j < |rs| ==> rs[i].seqno <= rs[j].seqno
  }

  lemma {:induction false} InsertOrdered(r: Rec, rs: seq<Rec>)
    requires Ordered(rs)
    ensures Ordered(Insert(r, rs))
  {
    if rs != [] && r.seqno > rs[0].seqno {
      InsertOrdered(r, rs[1..]);
      var tail := Insert(r, rs[1..]);
      forall j | 0 <= j < |tail| ensures rs[0].seqno <= tail[j].seqno {
        assert tail[j] in multiset(tail);
        assert tail[j] == r || tail[j] in rs[1..];
      }
    }
  }

  lemma {:induction false} SortOrdered(rs: seq<Rec>)
    ensures Ordered(SortBySeq(rs))
  {
    if rs != [] {
      SortOrdered(rs[1..]);
      InsertOrdered(rs[0], SortBySeq(rs[1..]));
    }
  }

  lemma SortElems(rs: seq<Rec>)
    ensures forall r :: r in SortBySeq(rs) <==> r in rs
  {
    forall r ensures r in SortBySeq(rs) <==> r in rs {
      assert r in rs <==> r in multiset(rs);
      assert r in SortBySeq(rs) <==> r in multiset(SortBySeq(rs));
    }
  }

  predicate DistinctSeqnos(rs: seq<Rec>) {
    forall i, j :: 0 <= i < j < |rs| ==> rs[i].seqno != rs[j].seqno
  }

  /** No number occurs twice in a multiset of lines. */
  ghost predicate OneEach(m: multiset<Rec>) {
    && (forall r :: m[r] <= 1)
    && (forall r, q :: r in m && q in m && r.seqno == q.seqno ==> r == q)
  }

  lemma {:induction false} OneEachOfDistinct(rs: seq<Rec>)
    requires DistinctSeqnos(rs)
    ensures OneEach(multiset(rs))
  {
    if rs != [] {
      var front, last := rs[..|rs| - 1], rs[|rs| - 1];
      OneEachOfDistinct(front);
      forall r | r in front ensures r.seqno != last.seqno {
        var i :| 0 <= i < |front| && front[i] == r;
        assert rs[i] == r;
      }
      AddOne(multiset(front), last);
      assert rs == front + [last];
    }
  }

  lemma AddOne(m: multiset<Rec>, r: Rec)
    requires OneEach(m) && forall q :: q in m ==> q.seqno != r.seqno
    ensures OneEach(m + multiset{r})
  {
  }

  lemma {:induction false} IncreasingOfOneEach(rs: seq<Rec>)
    requires Ordered(rs) && OneEach(multiset(rs))
    ensures Increasing(rs)
  {
    forall i, j | 0 <= i < j < |rs| ensures rs[i].seqno < rs[j].seqno {
      assert rs == rs[..j] + rs[j..];
      assert rs[i] in rs[..j] by { assert rs[..j][i] == rs[i]; }
      assert multiset(rs[j..])[rs[i]] == 0;
      assert rs[j] in rs[j..] by { assert rs[j..][0] == rs[j]; }
      assert rs[i] in multiset(rs) && rs[j] in multiset(rs);
    }
  }

  /** Sorting lines with distinct numbers yields strictly increasing numbers. */
  lemma SortIncreasing(rs: seq<Rec>)
    requires DistinctSeqnos(rs)
    ensures Increasing(SortBySeq(rs))
  {
    SortOrdered(rs);
    OneEachOfDistinct(rs);
    IncreasingOfOneEach(SortBySeq(rs));
  }

  // ----- strictly increasing sequences -----

  ghost predicate SameElems(a: seq<Rec>, b: seq<Rec>) {
    forall r :: r in a <==> r in b
  }

  lemma LastOfIncreasing(a: seq<Rec>, r: Rec)
    requires Increasing(a) && r in a
    ensures r.seqno <= a[|a| - 1].seqno
    ensures r in a[..|a| - 1] <==> r.seqno < a[|a| - 1].seqno
  {
    var i :| 0 <= i < |a| && a[i] == r;
    if i < |a| - 1 {
      assert a[..|a| - 1][i] == r;
    }
  }

  lemma SameLast(a: seq<Rec>, b: seq<Rec>)
    requires Increasing(a) && Increasing(b) && SameElems(a, b) && a != [] && b != []
    ensures a[|a| - 1] == b[|b| - 1] && SameElems(a[..|a| - 1], b[..|b| - 1])
  {
    var x, y := a[|a| - 1], b[|b| - 1];
    assert x in a && y in b;
    LastOfIncreasing(a, y);
    LastOfIncreasing(b, x);
    var a', b' := a[..|a| - 1], b[..|b| - 1];
    forall r ensures r in a' <==> r in b' {
      if r in a {
        LastOfIncreasing(a, r);
        LastOfIncreasing(b, r);
      }
    }
  }

  /** A strictly increasing sequence is determined by its elements. */
  lemma {:induction false} IncreasingUnique(a: seq<Rec>, b: seq<Rec>)
    requires Increasing(a) && Increasing(b) && SameElems(a, b)
    ensures a == b
  {
    assert |a| > 0 ==> a[0] in b;
    assert |b| > 0 ==> b[0] in a;
    if |a| > 0 && |b| > 0 {
      SameLast(a, b);
      IncreasingUnique(a[..|a| - 1], b[..|b| - 1]);
      assert a == a[..|a| - 1] + [a[|a| - 1]] && b == b[..|b| - 1] + [b[|b| - 1]];
    }
  }

  lemma {:induction false} KeepIncreasing(rs: seq<Rec>, s: int)
    requires Increasing(rs)
    ensures Increasing(Keep(rs, s))
  {
    if rs != [] {
      var front, last := rs[..|rs| - 1], rs[|rs| - 1];
      KeepIncreasing(front, s);
      forall r | r in Keep(front, s) ensures r.seqno < last.seqno {
        var i :| 0 <= i < |front| && front[i] == r;
        assert rs[i] == r;
      }
    }
  }

  lemma {:induction false} KeepAppend(a: seq<Rec>, b: seq<Rec>, s: int)
    ensures Keep(a + b, s) == Keep(a, s) + Keep(b, s)
  {
    if b == [] {
      assert a + b == a;
    } else {
      var front, last := b[..|b| - 1], b[|b| - 1];
      KeepAppend(a, front, s);
      assert (a + b)[..|a + b| - 1] == a + front;
      assert (a + b)[|a + b| - 1] == last;
    }
  }

  lemma KeepPrefix(a: seq<Rec>, b: seq<Rec>, s: int)
    requires a <= b
    ensures Keep(a, s) <= Keep(b, s)
  {
    assert b == a + b[|a|..];
    KeepAppend(a, b[|a|..], s);
  }

  lemma {:induction false} KeepAll(rs: seq<Rec>, s: int)
    requires forall r :: r in rs ==> Want(r, s)
    ensures Keep(rs, s) == rs
  {
    if rs != [] {
      assert forall r :: r in rs[..|rs| - 1] ==> r in rs;
      KeepAll(rs[..|rs| - 1], s);
      assert rs == rs[..|rs| - 1] + [rs[|rs| - 1]];
    }
  }

  lemma {:induction false} KeepNone(rs: seq<Rec>, s: int)
    requires forall r :: r in rs ==> !Want(r, s)
    ensures Keep(rs, s) == []
  {
    if rs != [] {
      assert rs[|rs| - 1] in rs;
      assert forall r :: r in rs[..|rs| - 1] ==> r in rs;
      KeepNone(rs[..|rs| - 1], s);
    }
  }

  /** Filtering for every stream changes nothing. */
  lemma KeepEvery(rs: seq<Rec>, s: int)
    requires s < 0
    ensures Keep(rs, s) == rs
  {
    KeepAll(rs, s);
  }
}
