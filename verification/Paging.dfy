/** Pages of a history, counted in 32-bit integers. */
module Paging {
  const TWO31 := 0x8000_0000
  const TWO32 := 0x1_0000_0000

  predicate Int32(x: int) {
    -TWO31 <= x < TWO31
  }

  function Wrap32(x: int): (w: int)
    ensures Int32(w) && (Int32(x) ==> w == x)
  {
    (x + TWO31) % TWO32 - TWO31
  }

  datatype Bounds = Bounds(total: int, start: int, end: int)

  /** A negative start counts from the end; an end that is not positive, or past the end,
      means the end. */
  function PageBounds(len: nat, start: int, end: int): Bounds {
    var n := Wrap32(len);
    var s0 := if start >= 0 then start else if Wrap32(n + start) < 0 then 0 else Wrap32(n + start);
    var e0 := if end <= 0 || end > n then n else end;
    var s := if s0 > n then n else s0;
    Bounds(n, s, if e0 < s then s else e0)
  }

  predicate InBounds(b: Bounds, len: nat) {
    0 <= b.start <= b.end <= len
  }

  /** For every start and end, including the least integer, the bounds cut a slice out of
      the history exactly when its length, as a 32-bit integer, is not negative; below 2^32
      lines that means fewer than 2^31, and one line more would make every page request
      slice at a negative index. */
  lemma PageDefined(len: nat, start: int, end: int)
    requires Int32(start) && Int32(end)
    ensures InBounds(PageBounds(len, start, end), len) <==> Wrap32(len) >= 0
    ensures len < TWO32 ==> (Wrap32(len) >= 0 <==> len < TWO31)
    ensures len < TWO31 ==> PageBounds(len, start, end).total == len
    ensures Wrap32(len) < 0 ==> PageBounds(len, start, end).start < 0
  {
    if len >= TWO31 && len < TWO32 {
      assert Wrap32(len) == len - TWO32;
    }
    assert Wrap32(len) <= len;
  }

  function Page<T>(rs: seq<T>, start: int, end: int): seq<T>
    requires |rs| < TWO31 && Int32(start) && Int32(end)
  {
    PageDefined(|rs|, start, end);
    var b := PageBounds(|rs|, start, end);
    rs[b.start..b.end]
  }

  ghost predicate Cuts(cuts: seq<int>) {
    && cuts != [] && cuts[0] == 0
    && (forall i :: 0 <= i < |cuts| ==> Int32(cuts[i]))
    && (forall i :: 0 < i < |cuts| ==> cuts[i - 1] < cuts[i])
  }

  /** The pages between successive cuts, one after another. */
  function Pages<T>(rs: seq<T>, cuts: seq<int>): seq<T>
    requires |rs| < TWO31 && forall i :: 0 <= i < |cuts| ==> Int32(cuts[i])
  {
    if |cuts| < 2 then []
    else Pages(rs, cuts[..|cuts| - 1]) + Page(rs, cuts[|cuts| - 2], cuts[|cuts| - 1])
  }

  /** Consecutive pages tile the history, wherever it is cut. */
  lemma {:induction false} PagesTile<T>(rs: seq<T>, cuts: seq<int>)
    requires |rs| < TWO31 && Cuts(cuts)
    ensures var last := cuts[|cuts| - 1];
            last >= 0 && Pages(rs, cuts) == rs[..if last < |rs| then last else |rs|]
  {
    if |cuts| >= 2 {
      var front, last := cuts[..|cuts| - 1], cuts[|cuts| - 1];
      PagesTile(rs, front);
      PageExtends(rs, front[|front| - 1], last);
    }
  }

  lemma PageExtends<T>(rs: seq<T>, start: int, end: int)
    requires |rs| < TWO31 && Int32(start) && Int32(end) && 0 <= start < end
    ensures rs[..if start < |rs| then start else |rs|] + Page(rs, start, end) == rs[..if end < |rs| then end else |rs|]
  {
    PageDefined(|rs|, start, end);
  }

  /** A page with a start that is not negative and a positive end within the history is
      the plain slice. */
  lemma PageIsSlice<T>(rs: seq<T>, start: int, end: int)
    requires |rs| < TWO31 && 0 <= start <= end <= |rs| && end > 0
    ensures Page(rs, start, end) == rs[start..end]
  {
  }

  /** A negative start with no end asks for the last lines. */
  lemma LastPage<T>(rs: seq<T>, k: int)
    requires |rs| < TWO31 && 0 < k <= TWO31
    ensures Page(rs, -k, 0) == if k >= |rs| then rs else rs[|rs| - k..]
  {
    PageDefined(|rs|, -k, 0);
  }

  /** What a page is, for all bounds, in unbounded arithmetic: a start below zero counts from
      the end and not past the beginning, an end that is not positive or lies past the end
      means the end, and a page that would end before it starts is empty. */
  lemma PageMeaning<T>(rs: seq<T>, start: int, end: int)
    requires |rs| < 0x8000_0000 && -0x8000_0000 <= start < 0x8000_0000 && -0x8000_0000 <= end < 0x8000_0000
    ensures var s := if start >= |rs| then |rs| else if start >= 0 then start else if start + |rs| >= 0 then start + |rs| else 0;
            var e := if end <= 0 || end >= |rs| then |rs| else end;
            Page(rs, start, end) == if e < s then [] else rs[s..e]
  {
    PageDefined(|rs|, start, end);
  }

  /** The default request, from a line to the end. */
  lemma PageToEnd<T>(rs: seq<T>, start: int, end: int)
    requires |rs| < TWO31 && Int32(start) && Int32(end) && 0 <= start <= |rs| && end <= 0
    ensures Page(rs, start, end) == rs[start..]
    ensures Page(rs, 0, 0) == rs
  {
    PageMeaning(rs, start, end);
    PageMeaning(rs, 0, 0);
  }
}
