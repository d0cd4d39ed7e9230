/** Unpacking an archive's entries into a file tree, on values. Paths in the tree are
    sequences of names; the top directory is always there. */
module SyncSpec {
  import opened Options
  import opened Paths

  type Path = seq<string>

  datatype Node = Dir | File(data: string)

  type Tree = map<Path, Node>

  /** `broken` means that only `data` could be read before the archive failed. */
  datatype Kind = Directory | Regular(data: string, broken: bool) | Link | Special | Unreadable

  datatype Entry = Entry(name: string, kind: Kind)

  predicate IsDir(fs: Tree, p: Path) {
    p == [] || (p in fs && fs[p] == Dir)
  }

  function Parent(p: Path): Path {
    if p == [] then [] else p[..|p| - 1]
  }

  /** Every node sits in a directory. */
  ghost predicate WellFormed(fs: Tree) {
    [] !in fs && forall p :: p in fs ==> IsDir(fs, Parent(p))
  }

  /** Creates a directory and its missing ancestors; fails, changing nothing, under a file. */
  function MkdirAll(fs: Tree, p: Path): Option<Tree>
    decreases |p|
  {
    if p == [] then Some(fs)
    else if p in fs then (if fs[p] == Dir then Some(fs) else None)
    else
      var up := MkdirAll(fs, Parent(p));
      if up.None? then None else Some(up.value[p := Dir])
  }

  /** Creates or truncates a file in an existing directory. */
  function PutFile(fs: Tree, p: Path, data: string): Option<Tree> {
    if IsDir(fs, p) || !IsDir(fs, Parent(p)) then None else Some(fs[p := File(data)])
  }

  function Cleared(fs: Tree, d: Path): Tree {
    map p | p in fs && !(d < p) :: fs[p]
  }

  function TrimDot(dest: string): string {
    var p := TrimPrefix(dest, "./");
    if p == "." then "" else p
  }

  function NameOf(e: Entry): string {
    TrimPrefix(e.name, "/")
  }

  predicate Named(e: Entry) {
    NameOf(e) != "" && NameOf(e) != "."
  }

  /** Where an entry goes, if that is inside the workspace. */
  function TargetOf(root: string, dest: string, e: Entry): Option<Path> {
    var t := Resolve(root, Join(TrimDot(dest), NameOf(e)));
    if t.None? then None else Some(Components(t.value))
  }

  function Components(p: string): Path {
    WalkAll(true, [], Split(p))
  }

  /** at: entries dealt with; files: regular files fully written. */
  datatype State = State(fs: Tree, files: nat, at: nat, ok: bool)

  /** What an entry with target p does. */
  function Place(s: State, p: Path, kind: Kind): State {
    match kind
    case Unreadable => s.(ok := false)
    case Link => s.(at := s.at + 1)
    case Special => s.(at := s.at + 1)
    case Directory =>
      var made := MkdirAll(s.fs, p);
      if made.None? then s.(ok := false) else s.(fs := made.value, at := s.at + 1)
    case Regular(data, broken) =>
      var made := MkdirAll(s.fs, Parent(p));
      if made.None? then s.(ok := false)
      else
        var put := PutFile(made.value, p, data);
        if put.None? then s.(fs := made.value, ok := false)
        else if broken then s.(fs := put.value, ok := false)
        else s.(fs := put.value, files := s.files + 1, at := s.at + 1)
  }

  function Apply(root: string, dest: string, s: State, e: Entry): State {
    var t := TargetOf(root, dest, e);
    if e.kind.Unreadable? then s.(ok := false)
    else if !Named(e) then s.(at := s.at + 1)
    else if t.None? then s.(ok := false)
    else Place(s, t.value, e.kind)
  }

  function ApplyAll(root: string, dest: string, s: State, es: seq<Entry>): State {
    if es == [] then s
    else
      var before := ApplyAll(root, dest, s, es[..|es| - 1]);
      if before.ok then Apply(root, dest, before, es[|es| - 1]) else before
  }

  function Dest(dest: string): string {
    if dest == "" then "." else dest
  }

  /** The whole operation: resolve and create the destination, empty it if asked, open the
      archive, unpack. */
  function Unpack(root: string, fs: Tree, archive: Option<seq<Entry>>, dest0: string, clean: bool): State {
    var dest := Dest(dest0);
    var d := Resolve(root, dest);
    if d.None? then State(fs, 0, 0, false)
    else
      var made := MkdirAll(fs, Components(d.value));
      if made.None? then State(fs, 0, 0, false)
      else
        var start := Start(fs, Components(d.value), clean);
        if archive.None? then State(start, 0, 0, false)
        else ApplyAll(root, dest, State(start, 0, 0, true), archive.value)
  }

  function Start(fs: Tree, d: Path, clean: bool): Tree
    requires MkdirAll(fs, d).Some?
  {
    var made := MkdirAll(fs, d).value;
    if clean then Cleared(made, d) else made
  }

  // ----- what each action may change -----

  /** Nothing not under rc changed, except that missing ancestors of rc became directories. */
  ghost predicate Confined(rc: Path, fs: Tree, fs': Tree) {
    forall p :: !(rc <= p) ==>
      && (p in fs ==> p in fs' && fs'[p] == fs[p])
      && (p in fs' && p !in fs ==> p < rc && fs'[p] == Dir)
  }

  lemma {:induction false} MkdirAdds(fs: Tree, p: Path)
    requires WellFormed(fs) && MkdirAll(fs, p).Some?
    ensures var fs' := MkdirAll(fs, p).value;
            && WellFormed(fs') && IsDir(fs', p)
            && (forall q :: q in fs ==> q in fs' && fs'[q] == fs[q])
            && (forall q :: q in fs' && q !in fs ==> q <= p && fs'[q] == Dir)
    decreases |p|
  {
    if p != [] && p !in fs {
      MkdirAdds(fs, Parent(p));
      assert Parent(p) <= p;
    }
  }

  /** A shorter prefix of the same path is a prefix of the longer one. */
  lemma Between(p: Path, rc: Path, q: Path)
    requires q <= p && rc <= p && !(rc <= q)
    ensures q < rc
  {
    assert q == p[..|q|] && rc == p[..|rc|];
  }

  lemma MkdirConfined(rc: Path, fs: Tree, p: Path)
    requires WellFormed(fs) && MkdirAll(fs, p).Some? && rc <= p
    ensures Confined(rc, fs, MkdirAll(fs, p).value)
  {
    MkdirAdds(fs, p);
    OnlyAncestors(rc, p, fs, MkdirAll(fs, p).value);
  }

  /** A change at p that otherwise only adds directories above p. */
  ghost predicate At(p: Path, fs: Tree, fs': Tree) {
    && (forall q :: q in fs && q != p ==> q in fs' && fs'[q] == fs[q])
    && (forall q :: q in fs' && q !in fs && q != p ==> q < p && fs'[q] == Dir)
  }

  lemma OnlyAncestors(rc: Path, p: Path, fs: Tree, fs': Tree)
    requires At(p, fs, fs') && rc <= p
    ensures Confined(rc, fs, fs')
  {
    forall q | q in fs' && q !in fs && !(rc <= q) ensures q < rc && fs'[q] == Dir {
      Between(p, rc, q);
    }
  }

  lemma ConfinedTrans(rc: Path, a: Tree, b: Tree, c: Tree)
    requires Confined(rc, a, b) && Confined(rc, b, c)
    ensures Confined(rc, a, c)
  {
  }

  lemma FileAt(fs: Tree, p: Path, data: string)
    requires WellFormed(fs) && MkdirAll(fs, Parent(p)).Some?
    ensures var made := MkdirAll(fs, Parent(p)).value;
            && WellFormed(made) && At(p, fs, made)
            && (p in fs ==> p in made && made[p] == fs[p])
            && var put := PutFile(made, p, data);
               put.Some? ==> WellFormed(put.value) && At(p, fs, put.value)
                             && p in put.value && put.value[p] == File(data)
  {
    MkdirAdds(fs, Parent(p));
    assert Parent(p) <= p;
    var made := MkdirAll(fs, Parent(p)).value;
    forall q | q in made && q !in fs && q != p ensures q < p {
      assert q <= Parent(p);
    }
  }

  /** An entry changes its target and adds missing directories above it; a regular entry
      that does not fail leaves its content there, any other leaves the target as it was. */
  lemma PlaceAt(s: State, p: Path, kind: Kind)
    requires WellFormed(s.fs)
    ensures var s' := Place(s, p, kind);
            && WellFormed(s'.fs) && At(p, s.fs, s'.fs)
            && (!kind.Regular? && p in s.fs ==> p in s'.fs && s'.fs[p] == s.fs[p])
            && (kind.Regular? && s.ok && s'.ok ==> p in s'.fs && s'.fs[p] == File(kind.data))
  {
    if kind.Directory? && MkdirAll(s.fs, p).Some? {
      MkdirAdds(s.fs, p);
    }
    if kind.Regular? && MkdirAll(s.fs, Parent(p)).Some? {
      FileAt(s.fs, p, kind.data);
    }
  }

  /** A directory can be made exactly when no file is in the way. */
  lemma {:induction false} MkdirFailsIff(fs: Tree, p: Path)
    requires WellFormed(fs)
    ensures MkdirAll(fs, p).None? <==> exists q :: q <= p && q in fs && fs[q] != Dir
    ensures MkdirAll(fs, p).Some? && p != [] ==> p in MkdirAll(fs, p).value && MkdirAll(fs, p).value[p] == Dir
    decreases |p|
  {
    if p != [] {
      if p in fs {
        if fs[p] == Dir {
          forall q | q <= p && q in fs ensures fs[q] == Dir {
            Ancestors(fs, p, q);
          }
        }
      } else {
        MkdirFailsIff(fs, Parent(p));
        forall q | q in fs && q <= p ensures q <= Parent(p) {
          assert q == p[..|q|] && p == p[..|p|] && q != p;
        }
        assert forall q :: q in fs && q <= Parent(p) ==> q <= p;
      }
    }
  }

  /** A file can be written exactly where its parent is a directory and it is none. */
  lemma PutFileIff(fs: Tree, p: Path, data: string)
    ensures PutFile(fs, p, data).Some? <==>
            !(p == [] || (p in fs && fs[p] == Dir)) && (|p| == 1 || (p[..|p| - 1] in fs && fs[p[..|p| - 1]] == Dir))
    ensures PutFile(fs, p, data).Some? ==> PutFile(fs, p, data) == Some(fs[p := File(data)])
  {
  }

  /** What a regular entry does at its target once the directories above it are there: its
      content, or as much as could be read, is written, and it counts exactly if all was. */
  lemma RegularExact(s: State, p: Path, data: string, broken: bool)
    requires s.ok && MkdirAll(s.fs, Parent(p)).Some?
    ensures var made, s' := MkdirAll(s.fs, Parent(p)).value, Place(s, p, Regular(data, broken));
            if p == [] || (p in made && made[p] == Dir) || !IsDir(made, Parent(p))
            then s' == s.(fs := made, ok := false)
            else && s'.fs == made[p := File(data)] && (s'.ok <==> !broken)
                 && s'.files == s.files + (if broken then 0 else 1) && s'.at == s.at + (if broken then 0 else 1)
  {
  }

  /** Nothing in the tree, and nothing in the entry, keeps it from being placed at p. */
  predicate Fits(fs: Tree, p: Path, kind: Kind) {
    && (kind == Directory ==> MkdirAll(fs, p).Some?)
    && (kind.Regular? ==>
          !kind.broken && MkdirAll(fs, Parent(p)).Some? && PutFile(MkdirAll(fs, Parent(p)).value, p, kind.data).Some?)
  }

  /** When one entry stops the unpacking: it cannot be read, leads out of the workspace, meets
      a file where a directory has to be or a directory where a file has to be, or breaks off. */
  lemma EntryFailsIff(root: string, dest: string, s: State, e: Entry)
    requires s.ok
    ensures var s' := Apply(root, dest, s, e);
            s'.ok <==> (e.kind != Unreadable &&
                        (NameOf(e) in ["", "."] || (TargetOf(root, dest, e).Some? && Fits(s.fs, TargetOf(root, dest, e).value, e.kind))))
    ensures e.kind in [Link, Special] || NameOf(e) in ["", "."] ==> Apply(root, dest, s, e).fs == s.fs
    ensures e.kind == Unreadable ==> Apply(root, dest, s, e) == s.(ok := false)
  {
  }

  /** When the whole operation fails before the first entry, and what it leaves then: nothing
      changed if the destination leads out of the workspace or cannot be made, and the
      destination made, and emptied if asked, if the archive cannot be opened. */
  lemma UnpackFailsEarly(root: string, fs: Tree, archive: Option<seq<Entry>>, dest: string, clean: bool)
    ensures var d, s := Resolve(root, Dest(dest)), Unpack(root, fs, archive, dest, clean);
            && (d.None? || MkdirAll(fs, Components(d.value)).None? ==> !s.ok && s.files == 0 && s.fs == fs)
            && (d.Some? && MkdirAll(fs, Components(d.value)).Some? ==>
                  var made := MkdirAll(fs, Components(d.value)).value;
                  var start := if clean then Cleared(made, Components(d.value)) else made;
                  if archive.None? then !s.ok && s.files == 0 && s.fs == start
                  else s == ApplyAll(root, Dest(dest), State(start, 0, 0, true), archive.value))
  {
  }

  /** Entries named "", ".", "/" or "/." are passed over; one leading slash of a name does not
      matter. */
  lemma NamesOfEntries(root: string, dest: string, s: State, name: string, kind: Kind)
    requires !kind.Unreadable?
    ensures name in ["", ".", "/", "/."] ==> Apply(root, dest, s, Entry(name, kind)) == s.(at := s.at + 1)
    ensures name != "" && name[0] != '/' ==>
              Apply(root, dest, s, Entry("/" + name, kind)) == Apply(root, dest, s, Entry(name, kind))
  {
    assert name != "" && name[0] != '/' ==> NameOf(Entry("/" + name, kind)) == name;
  }

  /** Accepted targets lie under the root's components. */
  lemma TargetInside(rc: Path, dest: string, e: Entry)
    requires Names(rc) && TargetOf(Render(true, rc), dest, e).Some?
    ensures rc <= TargetOf(Render(true, rc), dest, e).value
  {
    ResolvedInside(rc, Join(TrimDot(dest), NameOf(e)));
  }

  lemma ResolvedInside(rc: Path, path: string)
    requires Names(rc) && Resolve(Render(true, rc), path).Some?
    ensures rc <= Components(Resolve(Render(true, rc), path).value)
  {
    ResolveIffDescends(rc, path);
    WalkRoot(Destination(rc, path));
  }

  /** The entry, if it is placed at all, goes under top. */
  ghost predicate Under(top: Path, root: string, dest: string, e: Entry) {
    Named(e) && TargetOf(root, dest, e).Some? ==> top <= TargetOf(root, dest, e).value
  }

  lemma ApplyConfined(top: Path, root: string, dest: string, s: State, e: Entry)
    requires WellFormed(s.fs) && Under(top, root, dest, e)
    ensures var s' := Apply(root, dest, s, e);
            WellFormed(s'.fs) && Confined(top, s.fs, s'.fs)
  {
    var t := TargetOf(root, dest, e);
    if t.Some? && Named(e) {
      PlaceAt(s, t.value, e.kind);
      OnlyAncestors(top, t.value, s.fs, Place(s, t.value, e.kind).fs);
    }
  }

  lemma {:induction false} ApplyAllConfined(top: Path, root: string, dest: string, s: State, es: seq<Entry>)
    requires WellFormed(s.fs) && forall e :: e in es ==> Under(top, root, dest, e)
    ensures var s' := ApplyAll(root, dest, s, es);
            WellFormed(s'.fs) && Confined(top, s.fs, s'.fs)
  {
    if es != [] {
      var front := es[..|es| - 1];
      assert es[|es| - 1] in es;
      ApplyAllConfined(top, root, dest, s, front);
      var before := ApplyAll(root, dest, s, front);
      ApplyConfined(top, root, dest, before, es[|es| - 1]);
    }
  }

  lemma ClearedKeeps(rc: Path, fs: Tree, d: Path)
    requires WellFormed(fs) && rc <= d
    ensures WellFormed(Cleared(fs, d)) && Confined(rc, fs, Cleared(fs, d))
  {
    forall p | p in Cleared(fs, d) ensures IsDir(Cleared(fs, d), Parent(p)) {
      assert d < Parent(p) ==> d < p;
    }
  }

  /** Containment: whatever the entries, the destination and the failures, no path outside
      the root is changed or removed, and nothing appears there but missing parent
      directories of the root; with an existing root, nothing at all. */
  lemma UnpackContained(rc: Path, fs: Tree, archive: Option<seq<Entry>>, dest: string, clean: bool)
    requires Names(rc) && WellFormed(fs)
    ensures var s := Unpack(Render(true, rc), fs, archive, dest, clean);
            && WellFormed(s.fs) && Confined(rc, fs, s.fs)
            && (IsDir(fs, rc) ==> Untouched(rc, fs, s.fs))
  {
    var root, to := Render(true, rc), Dest(dest);
    if Resolve(root, to).Some? {
      ResolvedInside(rc, to);
    }
    if archive.Some? {
      forall e | e in archive.value ensures Under(rc, root, to, e) {
        if TargetOf(root, to, e).Some? { TargetInside(rc, to, e); }
      }
    }
    UnpackUnder(rc, root, fs, archive, dest, clean);
  }

  /** An unpacking whose destination and entries all go under top changes nothing else. */
  lemma UnpackUnder(top: Path, root: string, fs: Tree, archive: Option<seq<Entry>>, dest: string, clean: bool)
    requires WellFormed(fs)
    requires Resolve(root, Dest(dest)).Some? ==> top <= Components(Resolve(root, Dest(dest)).value)
    requires archive.Some? ==> forall e :: e in archive.value ==> Under(top, root, Dest(dest), e)
    ensures var s := Unpack(root, fs, archive, dest, clean);
            && WellFormed(s.fs) && Confined(top, fs, s.fs)
            && (IsDir(fs, top) ==> Untouched(top, fs, s.fs))
  {
    var to := Dest(dest);
    var d := Resolve(root, to);
    var s := Unpack(root, fs, archive, dest, clean);
    if d.Some? && MkdirAll(fs, Components(d.value)).Some? {
      StartConfined(top, fs, Components(d.value), clean);
      var start := Start(fs, Components(d.value), clean);
      if archive.Some? {
        ApplyAllConfined(top, root, to, State(start, 0, 0, true), archive.value);
        ConfinedTrans(top, fs, start, s.fs);
      }
    }
    if IsDir(fs, top) {
      RootThere(top, fs, s.fs);
    }
  }

  ghost predicate Untouched(rc: Path, fs: Tree, fs': Tree) {
    forall p :: !(rc <= p) ==> (p in fs' <==> p in fs) && (p in fs ==> fs'[p] == fs[p])
  }

  lemma StartConfined(top: Path, fs: Tree, d: Path, clean: bool)
    requires WellFormed(fs) && top <= d && MkdirAll(fs, d).Some?
    ensures WellFormed(Start(fs, d, clean)) && Confined(top, fs, Start(fs, d, clean))
  {
    var made := MkdirAll(fs, d).value;
    MkdirAdds(fs, d);
    MkdirConfined(top, fs, d);
    ClearedKeeps(top, made, d);
    ConfinedTrans(top, fs, made, Cleared(made, d));
  }

  lemma RootThere(rc: Path, fs: Tree, fs': Tree)
    requires WellFormed(fs) && IsDir(fs, rc) && Confined(rc, fs, fs') && WellFormed(fs')
    ensures Untouched(rc, fs, fs')
  {
    forall p | p in fs' && p < rc ensures p in fs {
      Ancestors(fs, rc, p);
    }
  }

  lemma {:induction false} Ancestors(fs: Tree, p: Path, q: Path)
    requires WellFormed(fs) && IsDir(fs, p) && q <= p
    ensures IsDir(fs, q)
    decreases |p|
  {
    if q != p {
      assert q <= Parent(p);
      Ancestors(fs, Parent(p), q);
    }
  }

  // ----- what is written, and how it is counted -----

  function Regulars(es: seq<Entry>): nat {
    if es == [] then 0
    else Regulars(es[..|es| - 1]) + if es[|es| - 1].kind.Regular? && Named(es[|es| - 1]) then 1 else 0
  }

  predicate GoesTo(root: string, dest: string, e: Entry, p: Path) {
    e.kind.Regular? && Named(e) && TargetOf(root, dest, e) == Some(p)
  }

  /** The content of the last regular entry that goes to p. */
  function LastContent(root: string, dest: string, es: seq<Entry>, p: Path): Option<string> {
    if es == [] then None
    else
      var e := es[|es| - 1];
      if GoesTo(root, dest, e, p) then Some(e.kind.data)
      else LastContent(root, dest, es[..|es| - 1], p)
  }

  lemma ApplyCounts(root: string, dest: string, s: State, e: Entry)
    requires s.ok
    ensures var s' := Apply(root, dest, s, e);
            && (s'.ok ==> s'.at == s.at + 1 && s'.files == s.files + if e.kind.Regular? && Named(e) then 1 else 0)
            && (!s'.ok ==> s'.at == s.at && s'.files == s.files)
  {
  }

  /** The count returned is that of the regular entries written before the stop, and all
      of them when nothing failed. */
  lemma {:induction false} CountsRegulars(root: string, dest: string, s: State, es: seq<Entry>)
    requires s.files == 0 && s.at == 0 && s.ok
    ensures var s' := ApplyAll(root, dest, s, es);
            s'.at <= |es| && s'.files == Regulars(es[..s'.at]) && (s'.ok <==> s'.at == |es|)
  {
    if es != [] {
      var front := es[..|es| - 1];
      CountsRegulars(root, dest, s, front);
      var before := ApplyAll(root, dest, s, front);
      if before.ok {
        ApplyCounts(root, dest, before, es[|es| - 1]);
      }
      assert front[..before.at] == es[..before.at];
      assert es[..|es|] == es;
    }
  }

  /** p holds `want` if there is one, and otherwise what it held. */
  ghost predicate Holds(want: Option<string>, fs: Tree, fs': Tree, p: Path) {
    if want.Some? then p in fs' && fs'[p] == File(want.value)
    else p in fs ==> p in fs' && fs'[p] == fs[p]
  }

  lemma ApplyHolds(root: string, dest: string, s: State, e: Entry, p: Path)
    requires WellFormed(s.fs) && s.ok && Apply(root, dest, s, e).ok
    ensures var s' := Apply(root, dest, s, e);
            WellFormed(s'.fs) && Holds(if GoesTo(root, dest, e, p) then Some(e.kind.data) else None, s.fs, s'.fs, p)
  {
    var t := TargetOf(root, dest, e);
    if t.Some? {
      PlaceAt(s, t.value, e.kind);
    }
  }

  /** After an unpacking that did not fail, each path a regular entry went to holds the
      content of the last such entry, and every other path that was there before holds
      what it held. */
  lemma {:induction false} LastWriteWins(root: string, dest: string, s: State, es: seq<Entry>, p: Path)
    requires WellFormed(s.fs) && s.ok && ApplyAll(root, dest, s, es).ok
    ensures var s' := ApplyAll(root, dest, s, es);
            WellFormed(s'.fs) && Holds(LastContent(root, dest, es, p), s.fs, s'.fs, p)
  {
    if es != [] {
      var front, e := es[..|es| - 1], es[|es| - 1];
      LastWriteWins(root, dest, s, front, p);
      ApplyHolds(root, dest, ApplyAll(root, dest, s, front), e, p);
    }
  }

  // ----- directories, and what clearing removes -----

  lemma ApplyKeepsDir(root: string, dest: string, s: State, e: Entry, p: Path)
    requires WellFormed(s.fs) && IsDir(s.fs, p)
    ensures IsDir(Apply(root, dest, s, e).fs, p)
  {
    var t := TargetOf(root, dest, e);
    if t.Some? {
      PlaceAt(s, t.value, e.kind);
      if e.kind.Regular? && t.value == p && MkdirAll(s.fs, Parent(p)).Some? {
        MkdirAdds(s.fs, Parent(p));
      }
    }
  }

  lemma ApplyMakesDir(root: string, dest: string, s: State, e: Entry)
    requires WellFormed(s.fs) && e.kind.Directory? && Named(e) && s.ok && Apply(root, dest, s, e).ok
    ensures TargetOf(root, dest, e).Some? && IsDir(Apply(root, dest, s, e).fs, TargetOf(root, dest, e).value)
  {
    MkdirAdds(s.fs, TargetOf(root, dest, e).value);
  }

  lemma ApplyWellFormed(root: string, dest: string, s: State, e: Entry)
    requires WellFormed(s.fs)
    ensures WellFormed(Apply(root, dest, s, e).fs)
  {
    var t := TargetOf(root, dest, e);
    if t.Some? { PlaceAt(s, t.value, e.kind); }
  }

  /** After an unpacking that did not fail, every directory entry's target is a directory. */
  lemma {:induction false} DirectoriesMade(root: string, dest: string, s: State, es: seq<Entry>, e: Entry)
    requires WellFormed(s.fs) && s.ok && ApplyAll(root, dest, s, es).ok
    requires e in es && e.kind.Directory? && Named(e)
    ensures WellFormed(ApplyAll(root, dest, s, es).fs)
    ensures TargetOf(root, dest, e).Some? && IsDir(ApplyAll(root, dest, s, es).fs, TargetOf(root, dest, e).value)
  {
    var front, last := es[..|es| - 1], es[|es| - 1];
    var before := ApplyAll(root, dest, s, front);
    assert es == front + [last];
    AllWellFormed(root, dest, s, front);
    ApplyWellFormed(root, dest, before, last);
    if e in front {
      DirectoriesMade(root, dest, s, front, e);
      ApplyKeepsDir(root, dest, before, last, TargetOf(root, dest, e).value);
    } else {
      ApplyMakesDir(root, dest, before, last);
    }
  }

  lemma {:induction false} AllWellFormed(root: string, dest: string, s: State, es: seq<Entry>)
    requires WellFormed(s.fs)
    ensures WellFormed(ApplyAll(root, dest, s, es).fs)
  {
    if es != [] {
      AllWellFormed(root, dest, s, es[..|es| - 1]);
      ApplyWellFormed(root, dest, ApplyAll(root, dest, s, es[..|es| - 1]), es[|es| - 1]);
    }
  }

  /** Clearing removes everything strictly under the directory, and nothing else. */
  lemma ClearedExact(fs: Tree, d: Path)
    ensures forall p :: p in Cleared(fs, d) <==> p in fs && !(d <= p && d != p)
    ensures forall p :: p in Cleared(fs, d) ==> Cleared(fs, d)[p] == fs[p]
    ensures MkdirAll(fs, d).Some? ==> forall p :: p in Start(fs, d, true) ==> !(d < p)
  {
  }

  /** p is an entry's target or a directory above one. */
  ghost predicate Unpacked(root: string, dest: string, es: seq<Entry>, p: Path) {
    exists e :: e in es && Named(e) && TargetOf(root, dest, e).Some? && p <= TargetOf(root, dest, e).value
  }

  lemma ApplyAdds(root: string, dest: string, s: State, e: Entry, p: Path)
    requires WellFormed(s.fs) && p in Apply(root, dest, s, e).fs && p !in s.fs
    ensures Named(e) && TargetOf(root, dest, e).Some? && p <= TargetOf(root, dest, e).value
  {
    var t := TargetOf(root, dest, e);
    if t.Some? { PlaceAt(s, t.value, e.kind); }
  }

  lemma {:induction false} AllAdds(root: string, dest: string, s: State, es: seq<Entry>, p: Path)
    requires WellFormed(s.fs) && p in ApplyAll(root, dest, s, es).fs && p !in s.fs
    ensures Unpacked(root, dest, es, p)
  {
    var front, last := es[..|es| - 1], es[|es| - 1];
    assert es == front + [last];
    AllWellFormed(root, dest, s, front);
    var before := ApplyAll(root, dest, s, front);
    if p in before.fs {
      AllAdds(root, dest, s, front, p);
      var e :| e in front && Named(e) && TargetOf(root, dest, e).Some? && p <= TargetOf(root, dest, e).value;
      assert e in es;
    } else {
      ApplyAdds(root, dest, before, last, p);
    }
  }

  /** A clean unpacking leaves under its destination what it unpacked and nothing older: every
      path strictly under the destination is an entry's target or a directory above one. */
  lemma CleanLeavesOnlyEntries(rc: Path, fs: Tree, es: seq<Entry>, dest: string, p: Path)
    requires Names(rc) && WellFormed(fs)
    requires var s := Unpack(Render(true, rc), fs, Some(es), dest, true); s.ok && p in s.fs
    requires Destination(rc, Dest(dest)) < p
    ensures Unpacked(Render(true, rc), Dest(dest), es, p)
  {
    var root, to := Render(true, rc), Dest(dest);
    ResolveIffDescends(rc, to);
    WalkRoot(Destination(rc, to));
    var d := Destination(rc, to);
    MkdirAdds(fs, d);
    ClearedKeeps([], MkdirAll(fs, d).value, d);
    ClearedExact(fs, d);
    AllAdds(root, to, State(Start(fs, d, true), 0, 0, true), es, p);
  }

  // ----- entries and their destination -----

  /** Where a destination leads, as entries are resolved against it. */
  function Base(rc: Path, dest: string): Path {
    Destination(rc, TrimDot(dest))
  }

  /** Entry names are taken relative to the destination, except that an absolute name under
      the bare root is absolute. */
  predicate Relative(dest: string, e: Entry) {
    TrimDot(dest) != "" || !IsAbs(NameOf(e))
  }

  /** An entry goes where its name leads from the destination, if that is under the root,
      and nowhere otherwise. */
  lemma EntryTarget(rc: Path, dest: string, e: Entry)
    requires Names(rc) && Relative(dest, e)
    ensures var pc := WalkAll(true, Base(rc, dest), Split(NameOf(e)));
            TargetOf(Render(true, rc), dest, e) == if rc <= pc && (rc == [] ==> pc == []) then Some(pc) else None
  {
    var path := Join(TrimDot(dest), NameOf(e));
    JoinDestination(rc, TrimDot(dest), NameOf(e));
    ResolveIffDescends(rc, path);
    DestinationNames(rc, path);
    WalkRoot(Destination(rc, path));
  }

  /** The destination a caller names is `Destination(rc, dest)`: the directory created and
      emptied. Entries are resolved against `Base(rc, dest)` instead. The two are the same
      unless another slash follows a leading "./", and then only if the rest climbs out of
      the whole root. */
  lemma BaseIff(rc: Path, dest: string)
    requires Names(rc)
    ensures Base(rc, dest) == Destination(rc, dest) <==>
            !("./" + "/" <= dest) || |rc| <= Ups(WalkAll(false, [], Split(dest[2..])))
  {
    Still(rc);
    if "./" <= dest {
      var rest := dest[2..];
      assert dest == "." + "/" + rest;
      assert rest != "" ==> rest[0] == dest[2];
      SplitJoin(".", rest);
      SplitName(".");
      WalkAppend(true, rc, ["."], Split(rest));
      WalkLands([], rest);
      WalkLands(rc, rest);
    }
  }

  /** Under the bare root, written "", ".", "./" or "./.", an absolute name is absolute. */
  lemma AbsoluteUnderRoot(rc: Path, dest: string, e: Entry)
    requires Names(rc) && dest in ["", ".", "./", "./."] && IsAbs(NameOf(e))
    ensures var pc := WalkAll(true, [], Split(NameOf(e)));
            TargetOf(Render(true, rc), Dest(dest), e) == if rc <= pc && (rc == [] ==> pc == []) then Some(pc) else None
  {
    assert TrimDot(Dest(dest)) == "";
    var path := Clean(NameOf(e));
    CleanDestination(rc, NameOf(e));
    CleanCanonical(NameOf(e));
    ResolveIffDescends(rc, path);
    DestinationNames(rc, path);
    WalkRoot(Destination(rc, path));
  }

  /** An entry is unpacked under the destination if and only if its cleaned name, climbing
      and descending from where entries are resolved, lands there; where that is the
      destination itself: if and only if the name has no leading "..", or descends again by
      the names it climbed. */
  lemma EntryStaysIff(rc: Path, dest: string, e: Entry)
    requires Names(rc) && rc != [] && Relative(dest, e) && rc <= Destination(rc, dest)
    ensures var t, d, b := TargetOf(Render(true, rc), dest, e), Destination(rc, dest), Base(rc, dest);
            && (t.Some? && d <= t.value <==> d <= Landing(b, NameOf(e)))
            && (b == d ==> (t.Some? && d <= t.value <==> StaysUnder(d, NameOf(e))))
  {
    EntryTarget(rc, dest, e);
    DestinationNames(rc, TrimDot(dest));
    WalkLands(Base(rc, dest), NameOf(e));
    LandsIff(Destination(rc, dest), NameOf(e));
  }

  /** What a caller can check of an archive: its entries land under the destination, or the
      destination is the root itself. */
  predicate AllStay(rc: Path, dest: string, es: seq<Entry>) {
    TrimDot(dest) == "" ||
    forall e :: e in es && Named(e) ==> Destination(rc, dest) <= Landing(Base(rc, dest), NameOf(e))
  }

  /** An archive whose entries all land under the destination changes nothing outside it. */
  lemma UnpackStaysUnder(rc: Path, fs: Tree, archive: Option<seq<Entry>>, dest: string, clean: bool)
    requires Names(rc) && rc != [] && WellFormed(fs)
    requires archive.Some? ==> AllStay(rc, Dest(dest), archive.value)
    ensures var d, s := Destination(rc, Dest(dest)), Unpack(Render(true, rc), fs, archive, dest, clean);
            Confined(d, fs, s.fs) && (IsDir(fs, d) ==> Untouched(d, fs, s.fs))
  {
    var root, to := Render(true, rc), Dest(dest);
    var d := Destination(rc, to);
    ResolveIffDescends(rc, to);
    if Resolve(root, to).Some? {
      WalkRoot(d);
      if archive.Some? {
        forall e | e in archive.value ensures Under(d, root, to, e) {
          if TrimDot(to) == "" {
            BareRoot(rc, to, e);
          } else if Named(e) {
            EntryStaysIff(rc, to, e);
          }
        }
      }
      UnpackUnder(d, root, fs, archive, dest, clean);
    }
  }

  lemma BareRoot(rc: Path, to: string, e: Entry)
    requires Names(rc) && TrimDot(to) == ""
    ensures Destination(rc, to) == rc && Under(rc, Render(true, rc), to, e)
  {
    Still(rc);
    assert |to| <= 3 && (|to| == 3 ==> to[2] == '.');
    BaseIff(rc, to);
    if TargetOf(Render(true, rc), to, e).Some? { TargetInside(rc, to, e); }
  }

  // ----- and only those -----

  lemma {:induction false} AllPlaced(root: string, dest: string, s: State, es: seq<Entry>, e: Entry)
    requires s.ok && ApplyAll(root, dest, s, es).ok && e in es && Named(e) && e.kind.Regular?
    ensures TargetOf(root, dest, e).Some? && LastContent(root, dest, es, TargetOf(root, dest, e).value).Some?
  {
    var front, last := es[..|es| - 1], es[|es| - 1];
    assert es == front + [last];
    if e != last {
      AllPlaced(root, dest, s, front, e);
    }
  }

  /** The check is exact: when an unpacking does not fail, a regular entry that does not
      land under the destination leaves its file outside it. */
  lemma LandsOutside(rc: Path, fs: Tree, es: seq<Entry>, dest: string, clean: bool, e: Entry)
    requires Names(rc) && rc != [] && WellFormed(fs) && Unpack(Render(true, rc), fs, Some(es), dest, clean).ok
    requires e in es && Named(e) && e.kind.Regular? && Relative(Dest(dest), e)
    ensures var p, d := Landing(Base(rc, Dest(dest)), NameOf(e)), Destination(rc, Dest(dest));
            var s := Unpack(Render(true, rc), fs, Some(es), dest, clean);
            && p in s.fs && s.fs[p].File? && TargetOf(Render(true, rc), Dest(dest), e) == Some(p)
            && (!(d <= p) ==> !AllStay(rc, Dest(dest), es))
  {
    var root, to := Render(true, rc), Dest(dest);
    var d := Components(Resolve(root, to).value);
    ResolveIffDescends(rc, to);
    MkdirAdds(fs, d);
    var made := MkdirAll(fs, d).value;
    ClearedKeeps([], made, d);
    var start := State(Start(fs, d, clean), 0, 0, true);
    AllPlaced(root, to, start, es, e);
    var p := TargetOf(root, to, e).value;
    LastWriteWins(root, to, start, es, p);
    EntryTarget(rc, to, e);
    DestinationNames(rc, TrimDot(to));
    WalkLands(Base(rc, to), NameOf(e));
    if TrimDot(to) == "" { BareRoot(rc, to, e); }
  }

  /** Entries are confined to the workspace, not to the destination: unpacked under a
      directory `a` of the root, the entry "../x" goes beside it. */
  lemma BesideDestination(rc: Path, a: string, x: string, kind: Kind)
    requires Names(rc) && rc != [] && IsName(a) && IsName(x)
    ensures TargetOf(Render(true, rc), a, Entry("../" + x, kind)) == Some(rc + [x])
    ensures !(rc + [a] <= rc + [x]) <==> a != x
  {
    var name := "../" + x;
    assert TrimDot(a) == a by { assert |a| > 1 ==> a[1] != '/'; }
    PlainName(rc, a);
    UpName(rc, a, x);
    EntryTarget(rc, a, Entry(name, kind));
    assert (rc + [a])[|rc|] == a && (rc + [x])[|rc|] == x;
    assert a != x ==> !(rc + [a] <= rc + [x]);
  }

  lemma UpName(rc: Path, a: string, x: string)
    requires IsName(a) && IsName(x)
    ensures var e := Entry("../" + x, Directory);
            NameOf(e) == "../" + x && WalkAll(true, rc + [a], Split("../" + x)) == rc + [x]
  {
    var up := "..";
    assert ("../" + x)[0] == '.';
    assert "../" + x == up + "/" + x;
    SplitJoin(up, x);
    SplitName(up);
    SplitName(x);
    WalkAppend(true, rc + [a], [up], [x]);
    WalkOne(rc + [a], up);
    WalkOne(rc, x);
  }

  lemma WalkOne(at: Path, c: string)
    ensures WalkAll(true, at, [c]) == Walk(true, at, c)
  {
    assert [c][..0] == [];
  }

  /** And it is written there: a whole unpacking into an existing directory `a`, without
      failure, that leaves a new file outside it. */
  lemma BesideWritten(rc: Path, a: string, x: string, fs: Tree, data: string)
    requires Names(rc) && rc != [] && IsName(a) && IsName(x) && a != x && WellFormed(fs)
    requires IsDir(fs, rc) && IsDir(fs, rc + [a]) && rc + [x] !in fs
    ensures var s := Unpack(Render(true, rc), fs, Some([Entry("../" + x, Regular(data, false))]), a, false);
            s.ok && s.files == 1 && s.fs == fs[rc + [x] := File(data)] && !(Destination(rc, a) <= rc + [x])
  {
    var root, e := Render(true, rc), Entry("../" + x, Regular(data, false));
    BesideDestination(rc, a, x, e.kind);
    assert ("../" + x)[0] == '.' && Named(e);
    assert Parent(rc + [x]) == rc;
    PlainName(rc, a);
    OneEntry(root, fs, a, false, e, rc + [a], rc + [x]);
  }

  lemma PlainName(rc: Path, a: string)
    requires Names(rc) && rc != [] && IsName(a)
    ensures Destination(rc, a) == rc + [a]
    ensures Resolve(Render(true, rc), a).Some? && Components(Resolve(Render(true, rc), a).value) == rc + [a]
  {
    SplitName(a);
    WalkOne(rc, a);
    ResolveIffDescends(rc, a);
    WalkRoot(rc + [a]);
  }

  /** The slash after "./" at work: for the root /a/b and the destination ".//a/b", a whole
      unpacking, without failure, empties /a/b/a/b and writes the entry "x" to /a/b/x. */
  lemma DotSlashSlash(rc: Path, x: string, fs: Tree, data: string)
    requires Names(rc) && rc != [] && IsName(x) && WellFormed(fs)
    requires IsDir(fs, rc) && IsDir(fs, rc + rc) && rc + [x] !in fs
    ensures var dest := "./" + Render(true, rc);
            var s := Unpack(Render(true, rc), fs, Some([Entry(x, Regular(data, false))]), dest, true);
            && Destination(rc, dest) == rc + rc && !(rc + rc <= rc + [x])
            && s.ok && s.files == 1 && s.fs == Cleared(fs, rc + rc)[rc + [x] := File(data)]
  {
    var root, e := Render(true, rc), Entry(x, Regular(data, false));
    var dest := "./" + root;
    AbsoluteBase(rc);
    SplitName(x);
    WalkOne(rc, x);
    assert Named(e);
    EntryTarget(rc, dest, e);
    ResolveIffDescends(rc, dest);
    WalkRoot(rc + rc);
    assert Parent(rc + [x]) == rc;
    if rc + [x] <= rc + rc {
      Ancestors(fs, rc + rc, rc + [x]);
    }
    assert rc + rc <= rc + [x] ==> |rc + rc| == |rc + [x]| && rc + [x] == rc + rc;
    OneEntry(root, fs, dest, true, e, rc + rc, rc + [x]);
  }

  /** "./" before the root's own path. */
  lemma AbsoluteBase(rc: Path)
    requires Names(rc) && rc != []
    ensures var dest := "./" + Render(true, rc);
            dest != "" && TrimDot(dest) == Render(true, rc) && Base(rc, dest) == rc && Destination(rc, dest) == rc + rc
  {
    var root := Render(true, rc);
    var dest := "./" + root;
    RootSplit(rc);
    assert root != ".";
    assert dest[2..] == root;
    WalkRoot(rc);
    assert dest == "." + "/" + root;
    SplitJoin(".", root);
    SplitName(".");
    WalkAppend(true, rc, ["."], [""] + rc);
    WalkAppend(true, rc, [""], rc);
    WalkOne(rc, ".");
    WalkOne(rc, "");
    WalkNames(rc, rc);
  }

  /** Unpacking one regular entry into existing directories. */
  lemma OneEntry(root: string, fs: Tree, a: string, clean: bool, e: Entry, d: Path, p: Path)
    requires a != "" && Resolve(root, a).Some? && Components(Resolve(root, a).value) == d && IsDir(fs, d)
    requires Named(e) && e.kind.Regular? && !e.kind.broken && TargetOf(root, a, e) == Some(p)
    requires p != [] && p !in fs && IsDir(fs, Parent(p)) && !(d < Parent(p))
    ensures Unpack(root, fs, Some([e]), a, clean) ==
            State((if clean then Cleared(fs, d) else fs)[p := File(e.kind.data)], 1, 1, true)
  {
    var s := State(if clean then Cleared(fs, d) else fs, 0, 0, true);
    IntoExisting(root, fs, [e], a, clean, d);
    PlaceOne(root, a, s, e, p);
  }

  lemma PlaceOne(root: string, a: string, s: State, e: Entry, p: Path)
    requires Named(e) && e.kind.Regular? && !e.kind.broken && TargetOf(root, a, e) == Some(p)
    requires s.ok && p != [] && p !in s.fs && IsDir(s.fs, Parent(p))
    ensures ApplyAll(root, a, s, [e]) == s.(fs := s.fs[p := File(e.kind.data)], files := s.files + 1, at := s.at + 1)
  {
    AllOfOne(root, a, s, e);
    ApplyPlaces(root, a, s, e, p);
    PlaceExisting(s, p, e.kind);
  }

  lemma ApplyPlaces(root: string, dest: string, s: State, e: Entry, p: Path)
    requires Named(e) && e.kind.Regular? && TargetOf(root, dest, e) == Some(p)
    ensures Apply(root, dest, s, e) == Place(s, p, e.kind)
  {
  }

  lemma IntoExisting(root: string, fs: Tree, es: seq<Entry>, a: string, clean: bool, d: Path)
    requires a != "" && Resolve(root, a).Some? && Components(Resolve(root, a).value) == d && IsDir(fs, d)
    ensures Unpack(root, fs, Some(es), a, clean) ==
            ApplyAll(root, a, State(if clean then Cleared(fs, d) else fs, 0, 0, true), es)
  {
    assert MkdirAll(fs, d) == Some(fs);
  }

  lemma PlaceExisting(s: State, p: Path, kind: Kind)
    requires kind.Regular? && !kind.broken && p != [] && p !in s.fs && IsDir(s.fs, Parent(p))
    ensures Place(s, p, kind) == s.(fs := s.fs[p := File(kind.data)], files := s.files + 1, at := s.at + 1)
  {
    assert MkdirAll(s.fs, Parent(p)) == Some(s.fs);
  }

  lemma AllOfOne(root: string, dest: string, s: State, e: Entry)
    requires s.ok
    ensures ApplyAll(root, dest, s, [e]) == Apply(root, dest, s, e)
  {
    assert [e][..0] == [];
    assert ApplyAll(root, dest, s, []) == s;
  }
}

/** The file service as the program keeps it. */
module FileServices {
  import opened Options
  import opened Paths
  import opened SyncSpec

  class FileService {
    const root: string
    var fs: Tree

    constructor (root: string, fs: Tree)
      ensures this.root == root && this.fs == fs
    {
      this.root, this.fs := root, fs;
    }

    /** Unpacks the entries under `dest0`; an archive that cannot be opened is None. */
    method SyncFolder(archive: Option<seq<Entry>>, dest0: string, clean: bool) returns (files: nat, ok: bool)
      modifies this
      ensures var s := Unpack(root, old(fs), archive, dest0, clean);
              fs == s.fs && files == s.files && ok == s.ok
    {
      var dest := if dest0 == "" then "." else dest0;
      var d := Resolve(root, dest);
      if d.None? {
        return 0, false;
      }
      var made := MkdirAll(fs, Components(d.value));
      if made.None? {
        return 0, false;
      }
      fs := made.value;
      if clean {
        fs := Cleared(fs, Components(d.value));
      }
      if archive.None? {
        return 0, false;
      }
      files, ok := UnpackEntries(archive.value, dest);
    }

    method UnpackEntries(es: seq<Entry>, dest: string) returns (files: nat, ok: bool)
      modifies this
      ensures var s := ApplyAll(root, dest, State(old(fs), 0, 0, true), es);
              fs == s.fs && files == s.files && ok == s.ok
    {
      files := 0;
      ghost var start := State(fs, 0, 0, true);
      var i := 0;
      assert es[..0] == [];
      while i < |es|
        invariant 0 <= i <= |es|
        invariant ApplyAll(root, dest, start, es[..i]) == State(fs, files, i, true)
      {
        ApplySnoc(root, dest, start, es, i);
        var e := es[i];
        var name := TrimPrefix(e.name, "/");
        if e.kind.Unreadable? {
          return files, false;
        }
        i := i + 1;
        if name == "" || name == "." {
          continue;
        }
        var target := TargetOf(root, dest, e);
        if target.None? {
          return files, false;
        }
        match e.kind
        case Directory =>
          var made := MkdirAll(fs, target.value);
          if made.None? {
            return files, false;
          }
          fs := made.value;
        case Regular(data, broken) =>
          var made := MkdirAll(fs, Parent(target.value));
          if made.None? {
            return files, false;
          }
          fs := made.value;
          var put := PutFile(fs, target.value, data);
          if put.None? {
            return files, false;
          }
          fs := put.value;
          if broken {
            return files, false;
          }
          files := files + 1;
        case Link =>
        case Special =>
        case Unreadable =>
      }
      assert es[..|es|] == es;
      return files, true;
    }
  }

  /** One more entry, and what an early stop means for the rest. */
  lemma ApplySnoc(root: string, dest: string, s: State, es: seq<Entry>, i: nat)
    requires i < |es| && ApplyAll(root, dest, s, es[..i]).ok
    ensures ApplyAll(root, dest, s, es[..i + 1]) == Apply(root, dest, ApplyAll(root, dest, s, es[..i]), es[i])
    ensures !ApplyAll(root, dest, s, es[..i + 1]).ok ==> ApplyAll(root, dest, s, es) == ApplyAll(root, dest, s, es[..i + 1])
  {
    assert es[..i + 1][..i] == es[..i];
    if !ApplyAll(root, dest, s, es[..i + 1]).ok {
      StopsThere(root, dest, s, es, i + 1);
    }
  }

  lemma {:induction false} StopsThere(root: string, dest: string, s: State, es: seq<Entry>, i: nat)
    requires i <= |es| && !ApplyAll(root, dest, s, es[..i]).ok
    ensures ApplyAll(root, dest, s, es) == ApplyAll(root, dest, s, es[..i])
  {
    if i < |es| {
      var front := es[..|es| - 1];
      assert front[..i] == es[..i];
      StopsThere(root, dest, s, front, i);
    } else {
      assert es[..i] == es;
    }
  }
}
