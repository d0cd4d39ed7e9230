/** Request paths, workspace containment, and workspace-relative rendering, on a tree
    without symbolic links. */
module Paths {
  import opened Options
  import Recs

  predicate IsName(c: string) {
    c != "" && c != "." && c != ".." && '/' !in c
  }

  predicate IsAbs(p: string) {
    p != "" && p[0] == '/'
  }

  /** The pieces between slashes. */
  function Split(p: string): (cs: seq<string>)
    ensures |cs| > 0 && forall c :: c in cs ==> '/' !in c
  {
    if p == "" then [""]
    else
      var rest := Split(p[1..]);
      if p[0] == '/' then [""] + rest else [[p[0]] + rest[0]] + rest[1..]
  }

  /** One piece of a path taken lexically: a name descends, ".." ascends, and above the top
      it stays there or, in a relative path, is kept. */
  function Walk(abs: bool, at: seq<string>, c: string): seq<string> {
    if c == "" || c == "." then at
    else if c != ".." then at + [c]
    else if at != [] && at[|at| - 1] != ".." then at[..|at| - 1]
    else if abs then at
    else at + [c]
  }

  function WalkAll(abs: bool, at: seq<string>, cs: seq<string>): seq<string> {
    if cs == [] then at else Walk(abs, WalkAll(abs, at, cs[..|cs| - 1]), cs[|cs| - 1])
  }

  /** "/a/b" for the names a, b. */
  function Slashed(cs: seq<string>): string {
    if cs == [] then "" else Slashed(cs[..|cs| - 1]) + "/" + cs[|cs| - 1]
  }

  function Render(abs: bool, cs: seq<string>): string {
    if cs == [] then (if abs then "/" else ".")
    else if abs then Slashed(cs)
    else Slashed(cs)[1..]
  }

  /** The shortest equivalent path. */
  function Clean(p: string): string {
    if p == "" then "." else Render(IsAbs(p), WalkAll(IsAbs(p), [], Split(p)))
  }

  function Join(a: string, b: string): string {
    if a == "" && b == "" then ""
    else if a == "" then Clean(b)
    else if b == "" then Clean(a)
    else Clean(a + "/" + b)
  }

  /** p is strictly inside root, as text. */
  predicate HasRootPrefix(p: string, root: string) {
    |p| > |root| && p[..|root|] == root && p[|root|] == '/'
  }

  /** The absolute path a request names, if it stays in the workspace. */
  function Resolve(root: string, path: string): Option<string> {
    var p := if IsAbs(path) then Clean(path) else Join(root, path);
    if p == root || HasRootPrefix(p, root) then Some(p) else None
  }

  function TrimPrefix(s: string, prefix: string): string {
    if prefix <= s then s[|prefix|..] else s
  }

  /** A path in the workspace, relative to it. */
  function Rel(root: string, p: string): string {
    var rel := TrimPrefix(TrimPrefix(p, root), "/");
    if rel == "" then "." else rel
  }

  // ----- components -----

  ghost predicate Names(cs: seq<string>) {
    forall c :: c in cs ==> IsName(c)
  }

  /** Where a request leads: from the top when absolute, from the root otherwise. */
  function Destination(rc: seq<string>, path: string): seq<string> {
    WalkAll(true, if IsAbs(path) then [] else rc, Split(path))
  }

  lemma SplitCons(ch: char, x: seq<string>, y: seq<string>)
    requires |x| > 0
    ensures [""] + (x + y) == [""] + x + y
    ensures [[ch] + (x + y)[0]] + (x + y)[1..] == [[ch] + x[0]] + x[1..] + y
  {
    assert (x + y)[1..] == x[1..] + y;
  }

  lemma {:induction false} SplitJoin(a: string, b: string)
    ensures Split(a + "/" + b) == Split(a) + Split(b)
  {
    var p := a + "/" + b;
    if a == "" {
      assert p[1..] == b;
    } else {
      SplitJoin(a[1..], b);
      assert p[1..] == a[1..] + "/" + b && p[0] == a[0];
      SplitCons(a[0], Split(a[1..]), Split(b));
    }
  }

  lemma {:induction false} SplitName(c: string)
    requires '/' !in c
    ensures Split(c) == [c]
  {
    if c != "" {
      SplitName(c[1..]);
      assert [c[0]] + c[1..] == c;
    }
  }

  lemma {:induction false} SplitSlashed(cs: seq<string>)
    requires forall c :: c in cs ==> '/' !in c
    ensures Split(Slashed(cs)) == [""] + cs
  {
    if cs != [] {
      var front, last := cs[..|cs| - 1], cs[|cs| - 1];
      assert last in cs;
      SplitSlashed(front);
      SplitJoin(Slashed(front), last);
      SplitName(last);
      assert cs == front + [last];
    }
  }

  lemma {:induction false} SlashedAppend(a: seq<string>, b: seq<string>)
    ensures Slashed(a + b) == Slashed(a) + Slashed(b)
  {
    if b == [] {
      assert a + b == a;
    } else {
      var front, last := b[..|b| - 1], b[|b| - 1];
      SlashedAppend(a, front);
      assert (a + b)[..|a + b| - 1] == a + front;
      assert (a + b)[|a + b| - 1] == last;
    }
  }

  lemma {:induction false} WalkAppend(abs: bool, at: seq<string>, a: seq<string>, b: seq<string>)
    ensures WalkAll(abs, at, a + b) == WalkAll(abs, WalkAll(abs, at, a), b)
  {
    if b == [] {
      assert a + b == a;
    } else {
      WalkAppend(abs, at, a, b[..|b| - 1]);
      assert (a + b)[..|a + b| - 1] == a + b[..|b| - 1];
    }
  }

  lemma {:induction false} WalkNames(at: seq<string>, cs: seq<string>)
    requires Names(cs)
    ensures WalkAll(true, at, cs) == at + cs
  {
    if cs != [] {
      var front, last := cs[..|cs| - 1], cs[|cs| - 1];
      assert last in cs;
      WalkNames(at, front);
      assert cs == front + [last];
    }
  }

  /** Walking an absolute path only ever leaves plain names behind. */
  lemma {:induction false} WalkKeepsNames(at: seq<string>, cs: seq<string>)
    requires Names(at) && forall c :: c in cs ==> '/' !in c
    ensures Names(WalkAll(true, at, cs))
  {
    if cs != [] {
      assert cs[|cs| - 1] in cs;
      WalkKeepsNames(at, cs[..|cs| - 1]);
    }
  }

  lemma DestinationNames(rc: seq<string>, path: string)
    requires Names(rc)
    ensures Names(Destination(rc, path))
  {
    WalkKeepsNames(if IsAbs(path) then [] else rc, Split(path));
  }

  lemma SlashedStarts(cs: seq<string>)
    requires cs != [] && Names(cs)
    ensures var s := Slashed(cs); |s| > 1 && s[0] == '/' && s[1] != '/'
  {
    assert cs == cs[..1] + cs[1..] && cs[..1] == [cs[0]];
    SlashedAppend([cs[0]], cs[1..]);
    assert IsName(cs[0]);
    assert Slashed([cs[0]]) == "/" + cs[0] by { assert [cs[0]][..0] == []; }
  }

  // ----- containment: text and components agree -----

  /** The cleaned text of a request is the rendering of where it leads. */
  lemma CleanedRequest(rc: seq<string>, path: string)
    requires Names(rc)
    ensures var root := Render(true, rc);
            (if IsAbs(path) then Clean(path) else Join(root, path)) == Render(true, Destination(rc, path))
  {
    var root := Render(true, rc);
    if !IsAbs(path) {
      RootSplit(rc);
      assert IsAbs(root);
      WalkRoot(rc);
      if path == "" {
        assert WalkAll(true, rc, [""][..0]) == rc;
      } else {
        SplitJoin(root, path);
        WalkAppend(true, [], Split(root), Split(path));
      }
    }
  }

  lemma RootSplit(rc: seq<string>)
    requires Names(rc)
    ensures Split(Render(true, rc)) == if rc == [] then ["", ""] else [""] + rc
    ensures IsAbs(Render(true, rc))
  {
    if rc == [] {
      assert "/"[1..] == "";
    } else {
      SplitSlashed(rc);
      SlashedStarts(rc);
    }
  }

  lemma WalkRoot(rc: seq<string>)
    requires Names(rc)
    ensures WalkAll(true, [], Split(Render(true, rc))) == rc
  {
    RootSplit(rc);
    if rc == [] {
      assert ["", ""][..1] == [""] && [""][..0] == [];
    } else {
      WalkAppend(true, [], [""], rc);
      assert [""][..0] == [];
      WalkNames([], rc);
    }
  }

  /** Two rendered paths: one textually at or under the other exactly when its components
      extend the other's; except that nothing is textually under "/". */
  lemma PrefixIsDescent(rc: seq<string>, pc: seq<string>)
    requires Names(rc) && Names(pc)
    ensures var root, p := Render(true, rc), Render(true, pc);
            p == root || HasRootPrefix(p, root) <==> rc <= pc && (rc == [] ==> pc == [])
  {
    if pc != [] { SlashedStarts(pc); }
    if rc != [] { SlashedStarts(rc); }
    if rc != [] && pc != [] {
      if rc <= pc {
        DescentIsText(rc, pc);
      } else if HasRootPrefix(Slashed(pc), Slashed(rc)) || Slashed(pc) == Slashed(rc) {
        TextIsDescent(rc, pc);
      }
    }
  }

  lemma DescentIsText(rc: seq<string>, pc: seq<string>)
    requires Names(rc) && Names(pc) && rc <= pc
    ensures HasRootPrefix(Slashed(pc), Slashed(rc)) || Slashed(pc) == Slashed(rc)
  {
    var more := pc[|rc|..];
    assert pc == rc + more;
    SlashedAppend(rc, more);
    if more != [] { SlashedStarts(more); }
  }

  lemma TextIsDescent(rc: seq<string>, pc: seq<string>)
    requires Names(rc) && Names(pc)
    requires HasRootPrefix(Slashed(pc), Slashed(rc)) || Slashed(pc) == Slashed(rc)
    ensures rc <= pc
  {
    SplitSlashed(rc);
    SplitSlashed(pc);
    if Slashed(pc) == Slashed(rc) {
      DropHead(pc, rc, []);
    } else {
      var tail := Slashed(pc)[|Slashed(rc)| + 1..];
      Regroup(Slashed(pc), Slashed(rc), tail);
      SplitJoin(Slashed(rc), tail);
      DropHead(pc, rc, Split(tail));
    }
  }

  lemma Regroup(p: string, root: string, tail: string)
    requires HasRootPrefix(p, root) && tail == p[|root| + 1..]
    ensures p == root + "/" + tail
  {
  }

  lemma DropHead(a: seq<string>, b: seq<string>, t: seq<string>)
    requires [""] + a == [""] + b + t
    ensures a == b + t
  {
    assert a == ([""] + a)[1..] && b + t == ([""] + b + t)[1..];
  }

  /** Containment: under a cleaned absolute root, a request is accepted exactly when its
      components extend the root's, and then it resolves to where they lead; the root "/"
      accepts only itself. */
  lemma ResolveIffDescends(rc: seq<string>, path: string)
    requires Names(rc)
    ensures var root, pc := Render(true, rc), Destination(rc, path);
            && (Resolve(root, path).Some? <==> rc <= pc && (rc == [] ==> pc == []))
            && (Resolve(root, path).Some? ==> Resolve(root, path) == Some(Render(true, pc)) && Names(pc))
  {
    CleanedRequest(rc, path);
    DestinationNames(rc, path);
    PrefixIsDescent(rc, Destination(rc, path));
  }

  /** Rendering a workspace path relative to the root and resolving it again gives the
      path back, and so does resolving it as it is. */
  lemma ResolveRel(rc: seq<string>, pc: seq<string>)
    requires Names(rc) && rc != [] && Names(pc) && rc <= pc
    ensures var root, p := Render(true, rc), Render(true, pc);
            Resolve(root, Rel(root, p)) == Some(p) && Resolve(root, p) == Some(p)
  {
    PrefixIsDescent(rc, pc);
    RootSplit(pc);
    WalkRoot(pc);
    if rc == pc {
      RelOfRoot(rc);
    } else {
      RelInside(rc, pc);
    }
  }

  lemma RelOfRoot(rc: seq<string>)
    requires Names(rc) && rc != []
    ensures Rel(Render(true, rc), Render(true, rc)) == "." && Destination(rc, ".") == rc
    ensures Resolve(Render(true, rc), ".") == Some(Render(true, rc))
  {
    CleanedRequest(rc, ".");
    SplitName(".");
    assert WalkAll(true, rc, ["."][..0]) == rc;
  }

  lemma RelInside(rc: seq<string>, pc: seq<string>)
    requires Names(rc) && rc != [] && Names(pc) && rc < pc
    ensures var root, p := Render(true, rc), Render(true, pc);
            var rel := Rel(root, p);
            !IsAbs(rel) && rel != "" && root + "/" + rel == p
  {
    var more := pc[|rc|..];
    assert pc == rc + more;
    SlashedAppend(rc, more);
    SlashedStarts(more);
    Trimmed(Slashed(rc), Slashed(more));
  }

  lemma Trimmed(root: string, more: string)
    requires |more| > 1 && more[0] == '/' && more[1] != '/'
    ensures Rel(root, root + more) == more[1..] && root + "/" + more[1..] == root + more
  {
    assert (root + more)[|root|..] == more;
    assert more == "/" + more[1..];
  }

  // ----- joining and cleaning keep the destination -----

  /** A cleaned relative path: k times "..", then names. */
  ghost predicate Normal(w: seq<string>, k: nat) {
    && k <= |w|
    && (forall i :: 0 <= i < k ==> w[i] == "..")
    && (forall i :: k <= i < |w| ==> IsName(w[i]))
  }

  lemma WalkSnoc(abs: bool, at: seq<string>, cs: seq<string>, c: string)
    ensures WalkAll(abs, at, cs + [c]) == Walk(abs, WalkAll(abs, at, cs), c)
  {
    assert (cs + [c])[..|cs|] == cs;
  }

  lemma {:induction false} RelNormal(cs: seq<string>) returns (k: nat)
    requires forall c :: c in cs ==> '/' !in c
    ensures Normal(WalkAll(false, [], cs), k)
  {
    if cs == [] {
      k := 0;
    } else {
      var front, last := cs[..|cs| - 1], cs[|cs| - 1];
      assert last in cs;
      k := RelNormal(front);
      var w := WalkAll(false, [], front);
      if last == ".." && (w == [] || w[|w| - 1] == "..") {
        k := |w| + 1;
      }
    }
  }

  /** Cleaning a relative path first leads to the same place. */
  lemma {:induction false} RelWalk(at: seq<string>, cs: seq<string>)
    requires Names(at) && forall c :: c in cs ==> '/' !in c
    ensures WalkAll(true, at, WalkAll(false, [], cs)) == WalkAll(true, at, cs)
  {
    if cs != [] {
      var front, last := cs[..|cs| - 1], cs[|cs| - 1];
      RelWalk(at, front);
      var w := WalkAll(false, [], front);
      assert last in cs;
      if last == ".." && w != [] && w[|w| - 1] != ".." {
        var k := RelNormal(front);
        assert IsName(w[|w| - 1]);
        assert w == w[..|w| - 1] + [w[|w| - 1]];
      } else if last != "" && last != "." {
        WalkSnoc(true, at, w, last);
      }
    }
  }

  lemma NormalText(w: seq<string>, k: nat)
    requires Normal(w, k) && w != []
    ensures !IsAbs(Render(false, w)) && Split(Render(false, w)) == w
  {
    forall c | c in w ensures '/' !in c && c != "" {
      var i :| 0 <= i < |w| && w[i] == c;
      if i < k { assert c == ".."; }
    }
    SplitSlashed(w);
    SlashedHead(w);
    var t := Slashed(w);
    assert Split(t) == [""] + Split(t[1..]);
    DropHead(w, Split(t[1..]), []);
  }

  lemma SlashedHead(w: seq<string>)
    requires w != [] && w[0] != "" && '/' !in w[0]
    ensures var s := Slashed(w); |s| > 1 && s[0] == '/' && s[1] != '/'
  {
    assert w == [w[0]] + w[1..];
    SlashedAppend([w[0]], w[1..]);
    assert Slashed([w[0]]) == "/" + w[0] by { assert [w[0]][..0] == []; }
  }

  /** Cleaning a request keeps where it leads. */
  lemma CleanDestination(rc: seq<string>, p: string)
    requires Names(rc)
    ensures Destination(rc, Clean(p)) == Destination(rc, p)
  {
    if p == "" {
      Still(rc);
    } else if IsAbs(p) {
      WalkKeepsNames([], Split(p));
      var at := WalkAll(true, [], Split(p));
      WalkRoot(at);
      RootSplit(at);
    } else {
      var w := WalkAll(false, [], Split(p));
      var k := RelNormal(Split(p));
      RelWalk(rc, Split(p));
      if w == [] {
        Still(rc);
      } else {
        NormalText(w, k);
      }
    }
  }

  /** A cleaned path is never empty, cleans to itself, and is as absolute as the original. */
  lemma CleanCanonical(p: string)
    ensures Clean(p) != "" && Clean(Clean(p)) == Clean(p) && (IsAbs(Clean(p)) <==> IsAbs(p))
  {
    if p == "" {
      RelDot();
    } else if IsAbs(p) {
      WalkKeepsNames([], Split(p));
      var at := WalkAll(true, [], Split(p));
      WalkRoot(at);
      RootSplit(at);
    } else {
      var w := WalkAll(false, [], Split(p));
      var k := RelNormal(Split(p));
      if w == [] {
        RelDot();
      } else {
        NormalText(w, k);
        NormalStays(w, k);
      }
    }
  }

  lemma RelDot()
    ensures Clean(".") == "."
  {
    SplitName(".");
    assert ["."][..0] == [];
  }

  lemma {:induction false} NormalStays(w: seq<string>, k: nat)
    requires Normal(w, k)
    ensures WalkAll(false, [], w) == w
  {
    if w != [] {
      var front := w[..|w| - 1];
      assert w == front + [w[|w| - 1]];
      NormalStays(front, Least(k, |front|));
    }
  }

  /** "" and "." stay in place. */
  lemma Still(at: seq<string>)
    ensures WalkAll(true, at, Split("")) == at && WalkAll(true, at, Split(".")) == at
  {
    SplitName(".");
    assert ["."][..0] == [] && [""][..0] == [];
  }

  /** A joined request leads where its second part leads from where its first part leads. */
  lemma JoinDestination(rc: seq<string>, a: string, b: string)
    requires Names(rc) && (a != "" || !IsAbs(b))
    ensures Destination(rc, Join(a, b)) == WalkAll(true, Destination(rc, a), Split(b))
  {
    Still(rc);
    if a == "" {
      CleanDestination(rc, b);
    } else if b == "" {
      CleanDestination(rc, a);
      Still(Destination(rc, a));
    } else {
      CleanDestination(rc, a + "/" + b);
      SplitJoin(a, b);
      WalkAppend(true, if IsAbs(a) then [] else rc, Split(a), Split(b));
    }
  }

  // ----- staying under a directory -----

  function Ups(w: seq<string>): (k: nat)
    ensures k <= |w|
  {
    if w != [] && w[0] == ".." then 1 + Ups(w[1..]) else 0
  }

  lemma {:induction false} UpsNormal(w: seq<string>, k: nat)
    requires Normal(w, k)
    ensures Ups(w) == k
  {
    if k > 0 {
      UpsNormal(w[1..], k - 1);
    }
  }

  function Least(a: nat, b: nat): nat {
    if a < b then a else b
  }

  lemma {:induction false} Climb(at: seq<string>, ups: seq<string>)
    requires Names(at) && forall c :: c in ups ==> c == ".."
    ensures WalkAll(true, at, ups) == at[..|at| - Least(|ups|, |at|)]
  {
    if ups != [] {
      var front := ups[..|ups| - 1];
      assert ups[|ups| - 1] in ups && forall c :: c in front ==> c in ups;
      Climb(at, front);
      var up := WalkAll(true, at, front);
      assert up != [] ==> up[|up| - 1] in at;
    }
  }

  /** Where a name leads from b: it climbs as often as its cleaned form starts with "..",
      not past the top, and descends by the rest. */
  function Landing(b: seq<string>, name: string): seq<string> {
    var w := WalkAll(false, [], Split(name));
    b[..|b| - Least(Ups(w), |b|)] + w[Ups(w)..]
  }

  lemma WalkLands(b: seq<string>, name: string)
    requires Names(b)
    ensures WalkAll(true, b, Split(name)) == Landing(b, name)
    ensures Names(WalkAll(false, [], Split(name))[Ups(WalkAll(false, [], Split(name)))..])
  {
    var w := WalkAll(false, [], Split(name));
    var k := RelNormal(Split(name));
    UpsNormal(w, k);
    RelWalk(b, Split(name));
    assert w == w[..k] + w[k..];
    WalkAppend(true, b, w[..k], w[k..]);
    Climb(b, w[..k]);
    WalkNames(b[..|b| - Least(k, |b|)], w[k..]);
  }

  /** A name that, cleaned, climbs no further than it descends again by the same names. */
  predicate StaysUnder(d: seq<string>, name: string) {
    var w := WalkAll(false, [], Split(name));
    Recs.Last(Ups(w), d) <= w[Ups(w)..]
  }

  /** A walk from d ends under d exactly when it stays under it in that sense. */
  lemma StaysIff(d: seq<string>, name: string)
    requires Names(d)
    ensures d <= WalkAll(true, d, Split(name)) <==> StaysUnder(d, name)
  {
    WalkLands(d, name);
    LandsIff(d, name);
  }

  lemma LandsIff(d: seq<string>, name: string)
    ensures d <= Landing(d, name) <==> StaysUnder(d, name)
  {
    var w := WalkAll(false, [], Split(name));
    var k := Ups(w);
    var up := d[..|d| - Least(k, |d|)];
    assert d == up + Recs.Last(k, d);
    PrefixSplit(up, Recs.Last(k, d), w[k..]);
  }

  lemma PrefixSplit(a: seq<string>, b: seq<string>, c: seq<string>)
    ensures a + b <= a + c <==> b <= c
  {
    if a + b <= a + c {
      assert forall i :: 0 <= i < |b| ==> b[i] == (a + b)[|a| + i] == (a + c)[|a| + i] == c[i];
    }
  }
}
