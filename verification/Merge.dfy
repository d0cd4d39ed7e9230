/** Rebuilding a job's history from persisted rows and the two rings. */
module Merge {
  import opened Recs

  /** The job's lines carry the numbers 1, 2, 3, ... and come from two streams. */
  ghost predicate Numbered(log: seq<Rec>) {
    forall i :: 0 <= i < |log| ==> log[i].seqno == i + 1 && log[i].stream in {STDOUT, STDERR}
  }

  function MaxSeqno(rs: seq<Rec>): (m: int)
    ensures m >= 0 && forall r :: r in rs ==> r.seqno <= m
    ensures m > 0 ==> exists r :: r in rs && r.seqno == m
  {
    if rs == [] then 0
    else
      var front, last := MaxSeqno(rs[..|rs| - 1]), rs[|rs| - 1];
      assert rs == rs[..|rs| - 1] + [last];
      if last.seqno > front then last.seqno else front
  }

  function Above(rs: seq<Rec>, m: int): (out: seq<Rec>)
    ensures forall r :: r in out <==> r in rs && r.seqno > m
  {
    if rs == [] then []
    else
      assert rs == rs[..|rs| - 1] + [rs[|rs| - 1]];
      if rs[|rs| - 1].seqno > m then Above(rs[..|rs| - 1], m) + [rs[|rs| - 1]]
      else Above(rs[..|rs| - 1], m)
  }

  /** The part of the rings a reader of stream s adds above number m. */
  function Fresh(out: seq<Rec>, err: seq<Rec>, s: int, m: int): seq<Rec> {
    (if s == STDOUT || s < 0 then Above(out, m) else []) +
    (if s == STDERR || s < 0 then Above(err, m) else [])
  }

  function Merged(persisted: seq<Rec>, out: seq<Rec>, err: seq<Rec>, s: int): seq<Rec> {
    persisted + SortBySeq(Fresh(out, err, s, MaxSeqno(persisted)))
  }

  // ----- facts about the log -----

  lemma {:induction false} AboveIncreasing(rs: seq<Rec>, m: int)
    requires Increasing(rs)
    ensures Increasing(Above(rs, m))
  {
    if rs != [] {
      var front, last := rs[..|rs| - 1], rs[|rs| - 1];
      AboveIncreasing(front, m);
      forall r | r in Above(front, m) ensures r.seqno < last.seqno {
        LastOfIncreasing(rs, r);
      }
    }
  }

  lemma NumberDetermines(log: seq<Rec>, a: Rec, b: Rec)
    requires Increasing(log) && a in log && b in log && a.seqno == b.seqno
    ensures a == b
  {
    var i :| 0 <= i < |log| && log[i] == a;
    var j :| 0 <= j < |log| && log[j] == b;
    assert i == j;
  }

  /** In an increasing sequence an element is in the tail exactly when its place is. */
  lemma InTail(rs: seq<Rec>, d: nat, i: nat)
    requires Increasing(rs) && d <= |rs| && i < |rs|
    ensures rs[i] in rs[d..] <==> d <= i
    ensures rs[i] in rs[..d] <==> i < d
  {
    if d <= i { assert rs[d..][i - d] == rs[i]; } else { assert rs[..d][i] == rs[i]; }
  }

  /** A ring of one stream: increasing lines of the log, all of that stream. */
  ghost predicate RingOf(ring: seq<Rec>, log: seq<Rec>, k: int) {
    Increasing(ring) && forall r :: r in ring ==> r in log && r.stream == k
  }

  lemma SuffixIsRing(log: seq<Rec>, k: int, d: nat, ring: seq<Rec>)
    requires Increasing(log) && k >= 0
    requires d <= |Keep(log, k)| && ring == Keep(log, k)[d..]
    ensures RingOf(ring, log, k)
  {
    KeepIncreasing(log, k);
    forall r | r in ring ensures r in log && r.stream == k {
      var i :| 0 <= i < |ring| && ring[i] == r;
      assert Keep(log, k)[d + i] == r;
    }
  }

  lemma FreshDistinct(log: seq<Rec>, out: seq<Rec>, err: seq<Rec>, s: int, m: int)
    requires Increasing(log) && RingOf(out, log, STDOUT) && RingOf(err, log, STDERR)
    ensures DistinctSeqnos(Fresh(out, err, s, m))
  {
    AboveIncreasing(out, m);
    AboveIncreasing(err, m);
    var a, b := Above(out, m), Above(err, m);
    forall i, j | 0 <= i < |a| && 0 <= j < |b| ensures a[i].seqno != b[j].seqno {
      assert a[i] in a && b[j] in b;
      if a[i].seqno == b[j].seqno { NumberDetermines(log, a[i], b[j]); }
    }
  }

  /** What may be in a merged read, and what must be. */
  lemma MergedElems(persisted: seq<Rec>, out: seq<Rec>, err: seq<Rec>, s: int, r: Rec)
    ensures r in Merged(persisted, out, err, s) <==>
            || r in persisted
            || (r.seqno > MaxSeqno(persisted) && (s == STDOUT || s < 0) && r in out)
            || (r.seqno > MaxSeqno(persisted) && (s == STDERR || s < 0) && r in err)
  {
    SortElems(Fresh(out, err, s, MaxSeqno(persisted)));
  }

  /** Whatever was dropped, reordered or evicted, and however the reads interleave
      with writes: the numbers strictly increase and every line is a completed line
      of the requested stream under its own number. */
  lemma MergedSound(log: seq<Rec>, persisted: seq<Rec>, out: seq<Rec>, err: seq<Rec>, s: int)
    requires Increasing(log) && RingOf(out, log, STDOUT) && RingOf(err, log, STDERR)
    requires Increasing(persisted) && forall r :: r in persisted ==> r in log && Want(r, s)
    ensures Increasing(Merged(persisted, out, err, s))
    ensures forall r :: r in Merged(persisted, out, err, s) ==> r in log && Want(r, s)
  {
    var m := MaxSeqno(persisted);
    FreshDistinct(log, out, err, s, m);
    var news := Fresh(out, err, s, m);
    assert forall r :: r in news ==> r in log && Want(r, s) && r.seqno > m;
    SortIncreasing(news);
    SortElems(news);
    Joined(persisted, SortBySeq(news), m);
  }

  lemma Joined(a: seq<Rec>, b: seq<Rec>, m: int)
    requires Increasing(a) && Increasing(b)
    requires (forall r :: r in a ==> r.seqno <= m) && (forall r :: r in b ==> r.seqno > m)
    ensures Increasing(a + b)
  {
    forall i, j | 0 <= i < |a| && 0 <= j < |b| ensures a[i].seqno < b[j].seqno {
      assert b[j] in b && a[i] in a;
    }
  }

  lemma PrefixMax(log: seq<Rec>, persisted: seq<Rec>, i: nat)
    requires Increasing(log) && persisted <= log && |persisted| <= i < |log| && log[i].seqno > 0
    ensures log[i].seqno > MaxSeqno(persisted)
  {
    var m := MaxSeqno(persisted);
    if m > 0 {
      var r :| r in persisted && r.seqno == m;
      var j :| 0 <= j < |persisted| && persisted[j] == r;
      assert log[j] == r;
    }
  }

  // ----- one stream: the read need not be one step -----

  /** A reader of one stream sees every line completed by the time it copies the ring
      exactly when the rows it had fetched are the first lines of that stream and the
      ring had evicted no line beyond them. */
  lemma MergedOneExact(log: seq<Rec>, persisted: seq<Rec>, out: seq<Rec>, err: seq<Rec>, k: int, d: nat)
    requires Numbered(log) && k in {STDOUT, STDERR}
    requires RingOf(out, log, STDOUT) && RingOf(err, log, STDERR)
    requires d <= |Keep(log, k)| && (if k == STDOUT then out else err) == Keep(log, k)[d..]
    requires Increasing(persisted) && forall r :: r in persisted ==> r in log && Want(r, k)
    ensures Merged(persisted, out, err, k) == Keep(log, k) <==>
            persisted <= Keep(log, k) && d <= |persisted|
  {
    if Merged(persisted, out, err, k) == Keep(log, k) {
      OneNecessary(log, persisted, out, err, k, d);
    } else if persisted <= Keep(log, k) && d <= |persisted| {
      OneSufficient(log, persisted, out, err, k, d);
    }
  }

  lemma OneNecessary(log: seq<Rec>, persisted: seq<Rec>, out: seq<Rec>, err: seq<Rec>, k: int, d: nat)
    requires Increasing(log) && k in {STDOUT, STDERR}
    requires d <= |Keep(log, k)| && (if k == STDOUT then out else err) == Keep(log, k)[d..]
    requires Merged(persisted, out, err, k) == Keep(log, k)
    ensures persisted <= Keep(log, k) && d <= |persisted|
  {
    var kept, merged := Keep(log, k), Merged(persisted, out, err, k);
    KeepIncreasing(log, k);
    assert persisted == merged[..|persisted|];
    if |persisted| < |kept| {
      var x := kept[|persisted|];
      assert x in merged;
      MergedElems(persisted, out, err, k, x);
      InTail(kept, d, |persisted|);
      InTail(kept, |persisted|, |persisted|);
    }
  }

  lemma OneFound(log: seq<Rec>, persisted: seq<Rec>, k: int, d: nat, i: nat)
    requires Numbered(log) && i < |Keep(log, k)|
    requires persisted <= Keep(log, k) && d <= |persisted|
    ensures var r := Keep(log, k)[i];
            r in persisted || (r.seqno > MaxSeqno(persisted) && r in Keep(log, k)[d..])
  {
    var kept := Keep(log, k);
    KeepIncreasing(log, k);
    if i < |persisted| {
      assert persisted[i] == kept[i];
    } else {
      assert kept[i] in kept;
      PrefixMax(kept, persisted, i);
      InTail(kept, d, i);
    }
  }

  lemma OneSufficient(log: seq<Rec>, persisted: seq<Rec>, out: seq<Rec>, err: seq<Rec>, k: int, d: nat)
    requires Numbered(log) && k in {STDOUT, STDERR}
    requires RingOf(out, log, STDOUT) && RingOf(err, log, STDERR)
    requires d <= |Keep(log, k)| && (if k == STDOUT then out else err) == Keep(log, k)[d..]
    requires persisted <= Keep(log, k) && d <= |persisted|
    ensures Merged(persisted, out, err, k) == Keep(log, k)
  {
    var kept, merged := Keep(log, k), Merged(persisted, out, err, k);
    KeepIncreasing(log, k);
    PrefixOf(persisted, kept);
    MergedSound(log, persisted, out, err, k);
    forall r | r in kept ensures r in merged {
      var i :| 0 <= i < |kept| && kept[i] == r;
      OneFound(log, persisted, k, d, i);
      MergedElems(persisted, out, err, k, r);
    }
    IncreasingUnique(merged, kept);
  }

  lemma PrefixOf(p: seq<Rec>, a: seq<Rec>)
    requires Increasing(a) && p <= a
    ensures Increasing(p) && forall r :: r in p ==> r in a
  {
  }

  // ----- every stream: the two rings are copied one after the other -----

  /** The lines of one stream that a merged read of everything can find. */
  lemma StreamFound(log: seq<Rec>, ringLog: seq<Rec>, persisted: seq<Rec>, ring: seq<Rec>, k: int, d: nat, r: Rec)
    requires Numbered(log) && k in {STDOUT, STDERR} && ringLog <= log && persisted <= log
    requires d <= |Keep(ringLog, k)| && ring == Keep(ringLog, k)[d..]
    requires d <= |Keep(persisted, k)| && Keep(ringLog, k) == Keep(log, k)
    requires r in log && r.stream == k
    ensures r in persisted || (r.seqno > MaxSeqno(persisted) && r in ring)
  {
    var kept := Keep(log, k);
    KeepIncreasing(log, k);
    KeepPrefix(persisted, log, k);
    var i :| 0 <= i < |log| && log[i] == r;
    var j :| 0 <= j < |kept| && kept[j] == r;
    if j < |Keep(persisted, k)| {
      assert Keep(persisted, k)[j] == r;
    } else if i < |persisted| {
      assert persisted[i] == r;
    } else {
      PrefixMax(log, persisted, i);
      InTail(kept, d, j);
    }
  }

  lemma PlaceFound(kept: seq<Rec>, p: nat, d: nat, n: nat, x: nat)
    requires Increasing(kept) && p <= n <= |kept| && d <= n && x < |kept|
    requires kept[x] in kept[..p] || kept[x] in kept[..n][d..]
    ensures x < p || d <= x < n
  {
    InTail(kept, p, x);
    if kept[x] in kept[..n][d..] {
      var y :| 0 <= y < n - d && kept[..n][d..][y] == kept[x];
      assert kept[d + y] == kept[x];
    }
  }

  /** If a read of everything is exact, each ring still had what the rows lacked. */
  lemma StreamComplete(log: seq<Rec>, ringLog: seq<Rec>, persisted: seq<Rec>, ring: seq<Rec>, k: int, d: nat)
    requires Numbered(log) && k in {STDOUT, STDERR} && ringLog <= log && persisted <= ringLog
    requires d <= |Keep(ringLog, k)| && ring == Keep(ringLog, k)[d..]
    requires forall r :: r in log && r.stream == k ==> r in persisted || r in ring
    ensures d <= |Keep(persisted, k)| && Keep(ringLog, k) == Keep(log, k)
  {
    var kept := Keep(log, k);
    KeepIncreasing(log, k);
    KeepPrefix(ringLog, log, k);
    KeepPrefix(persisted, ringLog, k);
    var n, p := |Keep(ringLog, k)|, |Keep(persisted, k)|;
    assert Keep(persisted, k) == kept[..p] && Keep(ringLog, k) == kept[..n];
    forall x | 0 <= x < |kept| ensures kept[x] in kept[..p] || kept[x] in kept[..n][d..] {
      assert kept[x] in log && kept[x].stream == k;
      if kept[x] in persisted { assert kept[x] in Keep(persisted, k); }
    }
    AllPlaced(kept, p, d, n);
  }

  lemma AllPlaced(kept: seq<Rec>, p: nat, d: nat, n: nat)
    requires Increasing(kept) && p <= n <= |kept| && d <= n
    requires forall x :: 0 <= x < |kept| ==> kept[x] in kept[..p] || kept[x] in kept[..n][d..]
    ensures d <= p && n == |kept|
  {
    if p < |kept| { PlaceFound(kept, p, d, n, p); }
    if 0 < |kept| { PlaceFound(kept, p, d, n, |kept| - 1); }
  }

  /** A read of both streams is the whole log exactly when the rows are its first lines,
      neither ring had evicted a line beyond them, and no stdout line was completed
      between the copy of the stdout ring and the copy of the stderr ring. */
  lemma MergedAllExact(log0: seq<Rec>, log: seq<Rec>, persisted: seq<Rec>, out: seq<Rec>, err: seq<Rec>, d0: nat, d1: nat)
    requires Numbered(log) && log0 <= log
    requires d0 <= |Keep(log0, STDOUT)| && out == Keep(log0, STDOUT)[d0..]
    requires d1 <= |Keep(log, STDERR)| && err == Keep(log, STDERR)[d1..]
    requires Increasing(persisted) && forall r :: r in persisted ==> r in log0
    ensures Merged(persisted, out, err, -1) == log <==>
            && persisted <= log
            && d0 <= |Keep(persisted, STDOUT)| && d1 <= |Keep(persisted, STDERR)|
            && Keep(log0, STDOUT) == Keep(log, STDOUT)
  {
    var merged := Merged(persisted, out, err, -1);
    assert Increasing(log0) && forall r :: r in log0 ==> r in log;
    SuffixIsRing(log0, STDOUT, d0, out);
    SuffixIsRing(log, STDERR, d1, err);
    MergedSound(log, persisted, out, err, -1);
    if merged == log {
      assert merged[..|persisted|] == persisted;
      PrefixWithin(persisted, log0, log);
      forall r | r in log ensures r in persisted || r in (if r.stream == STDOUT then out else err) {
        MergedElems(persisted, out, err, -1, r);
      }
      StreamComplete(log, log0, persisted, out, STDOUT, d0);
      StreamComplete(log, log, persisted, err, STDERR, d1);
    } else if persisted <= log && d0 <= |Keep(persisted, STDOUT)| && d1 <= |Keep(persisted, STDERR)|
              && Keep(log0, STDOUT) == Keep(log, STDOUT) {
      AllSufficient(log0, log, persisted, out, err, d0, d1);
    }
  }

  lemma AllSufficient(log0: seq<Rec>, log: seq<Rec>, persisted: seq<Rec>, out: seq<Rec>, err: seq<Rec>, d0: nat, d1: nat)
    requires Numbered(log) && log0 <= log && persisted <= log
    requires d0 <= |Keep(persisted, STDOUT)| && d1 <= |Keep(persisted, STDERR)|
    requires d0 <= |Keep(log0, STDOUT)| && out == Keep(log0, STDOUT)[d0..]
    requires d1 <= |Keep(log, STDERR)| && err == Keep(log, STDERR)[d1..]
    requires Keep(log0, STDOUT) == Keep(log, STDOUT)
    ensures Merged(persisted, out, err, -1) == log
  {
    var merged := Merged(persisted, out, err, -1);
    SuffixIsRing(log, STDOUT, d0, out);
    SuffixIsRing(log, STDERR, d1, err);
    PrefixOf(persisted, log);
    MergedSound(log, persisted, out, err, -1);
    forall r | r in log ensures r in merged {
      if r.stream == STDOUT {
        StreamFound(log, log0, persisted, out, STDOUT, d0, r);
      } else {
        StreamFound(log, log, persisted, err, STDERR, d1, r);
      }
      MergedElems(persisted, out, err, -1, r);
    }
    IncreasingUnique(merged, log);
  }

  lemma PrefixWithin(p: seq<Rec>, a: seq<Rec>, b: seq<Rec>)
    requires Numbered(b) && a <= b && p <= b && forall r :: r in p ==> r in a
    ensures p <= a
  {
    if p != [] {
      var last := p[|p| - 1];
      assert last in a;
      var i :| 0 <= i < |a| && a[i] == last;
      assert b[i] == b[|p| - 1];
    }
  }

  /** Sorting the two per-stream histories together restores the order of completion. */
  lemma StreamsInterleave(log: seq<Rec>)
    requires Numbered(log)
    ensures SortBySeq(Keep(log, STDOUT) + Keep(log, STDERR)) == log
  {
    var out, err := Keep(log, STDOUT), Keep(log, STDERR);
    assert out == Keep(log, STDOUT)[0..] && err == Keep(log, STDERR)[0..];
    MergedAllExact(log, log, [], out, err, 0, 0);
    AboveAll(out);
    AboveAll(err);
  }

  lemma {:induction false} AboveAll(rs: seq<Rec>)
    requires forall r :: r in rs ==> r.seqno > 0
    ensures Above(rs, 0) == rs
  {
    if rs != [] {
      var front, last := rs[..|rs| - 1], rs[|rs| - 1];
      assert rs == front + [last];
      AboveAll(front);
    }
  }
}
