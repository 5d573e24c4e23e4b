/**
 A destination with ".." behind a link. Members are written through the destination as it
 is written, but the directories that hold them are made from the lexically cleaned one.
 This module says exactly when that does no harm.
 */
module Destination {
  import opened Text
  import opened Paths
  import opened RootFs
  import opened FileOps
  import opened Reaching
  import opened Extract
  import opened Rebuild
  import opened Outcomes
  import opened Archive
  import opened RoundTrip

  // ----- what making the parent of a member does

  lemma {:induction false} ParentAdds(fs: FS, dest: string, rel: Path)
    requires Tree(fs) && NUL !in dest && rel != [] && NamesOk(rel)
    ensures var made := MakeParent(fs, Target(dest, rel));
            AddsDirs(fs, made.fs) && (made.ok && made.fs == fs ==> ParentLeads(fs, dest, rel))
  {
    hide Tree, Leads, CleanDest, MakeParent, MkdirFrom, Target, AddsDirs, StepsOk;
    var parts := CleanDest(dest) + rel[..|rel| - 1];
    ParentIs(fs, dest, rel);
    MkdirFromAdds(fs, parts, 0);
    if MkdirFrom(fs, parts, 0).ok {
      StartLeads(fs, parts);
      MkdirFromMakes(fs, parts, 0);
    }
  }

  /** A larger filesystem has an entry more. */
  lemma {:induction false} EntryMore(fs: FS, large: FS) returns (p: Path)
    requires AddsDirs(fs, large) && large != fs
    ensures p in large && p !in fs && large[p] == Dir
  {
    assert (forall q | q in large :: q in fs) ==> large == fs;
    p :| p in large && p !in fs;
  }

  /** Nothing else was added than a directory where the member goes. */
  lemma {:induction false} OnlyEntry(fs: FS, large: FS, place: Path)
    requires AddsDirs(fs, large) && large != fs && forall q | q in large && q !in fs :: q == place
    ensures large == fs[place := Dir]
  {
    var p := EntryMore(fs, large);
    var one := fs[place := Dir];
    assert forall q :: q in large <==> q in one;
    assert forall q | q in large :: large[q] == one[q];
  }

  lemma {:induction false} HousedStable(fs: FS, large: FS, d: Path, rel: Path)
    requires Extends(fs, large) && Housed(fs, d, rel)
    ensures Housed(large, d, rel)
  {
    hide NamesOk;
    forall k | 0 <= k <= |rel| - 1 ensures d + rel[..k] in large && large[d + rel[..k]] == Dir {
      assert d + rel[..k] in fs;
    }
  }

  /** After the parent was made, the target still resolves to its place. */
  lemma {:induction false} TargetStill(fs: FS, large: FS, dest: string, d: Path, rel: Path)
    requires Tree(fs) && Tree(large) && AddsDirs(fs, large) && RawDest(fs, dest, d) && Rooted(fs, d, rel)
    ensures ResolvePath(large, Target(dest, rel), false) == Ok(d + rel)
    ensures ResolvePath(large, Target(dest, rel), true) == Ok(d + rel)
  {
    hide Tree, RawDest, Housed, Target, ResolvePath;
    RawDestStable(fs, large, dest, d);
    HousedStable(fs, large, d, rel);
    ResolveMember(large, dest, d, rel, false);
    ResolveMember(large, dest, d, rel, true);
  }

  /** Writing a file takes no entry away. */
  lemma {:induction false} WriteFileKeys(fs: FS, target: string, body: seq<int>, overwrite: bool, budget: int, p: Path)
    requires Tree(fs) && p in MakeParent(fs, target).fs
    ensures p in WriteFile(fs, target, body, overwrite, budget).fs
  {
    hide Tree, ResolvePath, MakeParent, NameOk, LstatOk;
  }

  /** Writing a link takes none away but one in its own place. */
  lemma {:induction false} WriteSymlinkKeys(fs: FS, target: string, link: string, overwrite: bool, place: Path, p: Path)
    requires Tree(fs) && p in MakeParent(fs, target).fs && p != place
    requires ResolvePath(MakeParent(fs, target).fs, target, false) == Ok(place)
    ensures p in WriteSymlink(fs, target, link, overwrite).fs
  {
    hide Tree, ResolvePath, MakeParent, NameOk, LstatOk;
  }

  // ----- one member, exactly

  /** The one way in which making a directory too much does no harm: the link then replaces it. */
  ghost predicate Displaced(fs: FS, dest: string, d: Path, rel: Path)
    requires Tree(fs)
  {
    MakeParent(fs, Target(dest, rel)) == Effect(fs[d + rel := Dir], true)
  }

  lemma {:induction false} FileOverDir(fs: FS, target: string, body: seq<int>, overwrite: bool, budget: int,
                                       place: Path)
    requires Tree(fs)
    requires var made := MakeParent(fs, target);
             && ResolvePath(made.fs, target, false) == Ok(place) && ResolvePath(made.fs, target, true) == Ok(place)
             && place in made.fs && made.fs[place] == Dir
    ensures !WriteFile(fs, target, body, overwrite, budget).ok
  {
    hide Tree, ResolvePath, MakeParent;
  }

  lemma {:induction false} LinkOverDir(fs: FS, target: string, link: string, place: Path)
    requires Tree(fs)
    requires var made := MakeParent(fs, target); ResolvePath(made.fs, target, false) == Ok(place) && place in made.fs
    ensures !WriteSymlink(fs, target, link, false).ok
  {
    hide Tree, ResolvePath, MakeParent;
  }

  /** If the cleaned path to a file's parent does not lead, the file cannot be written without a trace elsewhere. */
  lemma {:induction false} FileSpills(fs: FS, dest: string, d: Path, rel: Path, body: seq<int>, overwrite: bool,
                                      budget: int)
    requires Tree(fs) && RawDest(fs, dest, d) && Rooted(fs, d, rel) && !ParentLeads(fs, dest, rel)
    ensures var w := WriteFile(fs, Target(dest, rel), body, overwrite, budget);
            !(w.ok && w.fs == fs[d + rel := File(body)])
  {
    RootedNames(fs, d, rel);
    RawDestNul(fs, dest, d);
    hide Tree, RawDest, Rooted, ParentLeads, WriteFile, MakeParent, Target, ResolvePath;
    var target := Target(dest, rel);
    var made := MakeParent(fs, target);
    ParentAdds(fs, dest, rel);
    if made.ok {
      TargetStill(fs, made.fs, dest, d, rel);
      var p := EntryMore(fs, made.fs);
      WriteFileKeys(fs, target, body, overwrite, budget, p);
      if p == d + rel {
        FileOverDir(fs, target, body, overwrite, budget, p);
      }
    } else {
      NoParentNoFile(fs, target, body, overwrite, budget);
    }
  }

  lemma {:induction false} NoParentNoFile(fs: FS, target: string, body: seq<int>, overwrite: bool, budget: int)
    requires Tree(fs) && !MakeParent(fs, target).ok
    ensures !WriteFile(fs, target, body, overwrite, budget).ok &&
            forall link :: !WriteSymlink(fs, target, link, overwrite).ok
  {
    hide Tree, ResolvePath, MakeParent;
  }

  lemma {:induction false} LinkSpills(fs: FS, dest: string, d: Path, rel: Path, link: string, overwrite: bool)
    requires Tree(fs) && RawDest(fs, dest, d) && Rooted(fs, d, rel) && !ParentLeads(fs, dest, rel)
    requires !(overwrite && Displaced(fs, dest, d, rel))
    ensures var w := WriteSymlink(fs, Target(dest, rel), link, overwrite);
            !(w.ok && w.fs == fs[d + rel := Link(link)])
  {
    RootedNames(fs, d, rel);
    RawDestNul(fs, dest, d);
    hide Tree, RawDest, Rooted, ParentLeads, WriteSymlink, MakeParent, Target, ResolvePath;
    var target, place := Target(dest, rel), d + rel;
    var made := MakeParent(fs, target);
    ParentAdds(fs, dest, rel);
    if !made.ok {
      NoParentNoFile(fs, target, [], overwrite, 0);
    } else {
      TargetStill(fs, made.fs, dest, d, rel);
      if q :| q in made.fs && q !in fs && q != place {
        WriteSymlinkKeys(fs, target, link, overwrite, place, q);
      } else {
        OnlyEntry(fs, made.fs, place);
        LinkOverDir(fs, target, link, place);
      }
    }
  }

  predicate Leaf(fs: FS, place: Path)
  {
    forall q | q in fs :: !(place < q)
  }

  lemma {:induction false} NothingBelow(fs: FS, place: Path)
    requires Tree(fs) && place !in fs
    ensures Leaf(fs[place := Dir], place)
  {
    forall q | q in fs && place < q ensures false {
      assert q[..|place|] == place;
      PrefixIsDir(fs, q, |place|);
    }
  }

  /** The directory made in the link's own place is empty, so it is removed and the link takes it. */
  lemma {:induction false} LinkReplaces(fs: FS, dest: string, d: Path, rel: Path, link: string)
    requires Tree(fs) && RawDest(fs, dest, d) && Rooted(fs, d, rel) && Displaced(fs, dest, d, rel)
    ensures WriteSymlink(fs, Target(dest, rel), link, true) == Effect(fs[d + rel := Link(link)], true)
  {
    RootedNames(fs, d, rel);
    RawDestNul(fs, dest, d);
    CreateMember(fs, d, rel, Dir);
    NothingBelow(fs, d + rel);
    hide Tree, RawDest, Rooted, Housed, MakeParent, Target, ResolvePath, CreateAt;
    var target, place, made := Target(dest, rel), d + rel, fs[d + rel := Dir];
    ParentAdds(fs, dest, rel);
    TargetStill(fs, made, dest, d, rel);
    RemovesBack(fs, made, target, place);
    ResolveMember(fs, dest, d, rel, false);
    CreateMember(fs, d, rel, Link(link));
  }

  lemma {:induction false} RemovesBack(fs: FS, made: FS, target: string, place: Path)
    requires Tree(fs) && Tree(made) && place != [] && place !in fs && made == fs[place := Dir]
    requires ResolvePath(made, target, false) == Ok(place) && Leaf(made, place)
    ensures LstatOk(made, target) && Remove(made, target) == Effect(fs, true)
  {
    hide Tree, ResolvePath;
    assert made - {place} == fs;
  }

  /**
   A file or a link below the destination is written, and nothing else, exactly when the
   cleaned path to its parent leads to a directory, or the directory made in its stead is
   the link's own place and may be overwritten.
   */
  lemma {:induction false} ItemExactly(fs: FS, item: Item, dest: string, d: Path, overwrite: bool, budget: int)
    requires Tree(fs) && RawDest(fs, dest, d) && Rooted(fs, d, item.rel) && (item.node.File? || item.node.Link?)
    requires item.node.File? ==> Affords(budget, |item.node.bytes|)
    ensures item.rel != []
    ensures var w := WriteMember(fs, MemberOf(item), Target(dest, item.rel), overwrite, budget);
            w.ok && w.fs == fs[d + item.rel := item.node]
            <==> ParentLeads(fs, dest, item.rel) || (overwrite && item.node.Link? && Displaced(fs, dest, d, item.rel))
  {
    RootedNames(fs, d, item.rel);
    hide Tree, RawDest, Rooted, ParentLeads, Displaced, WriteFile, WriteSymlink, Target, Affords, Join;
    var rel := item.rel;
    if item.node.File? {
      if ParentLeads(fs, dest, rel) {
        FileMember(fs, dest, d, rel, item.node.bytes, overwrite, budget);
      } else {
        FileSpills(fs, dest, d, rel, item.node.bytes, overwrite, budget);
      }
    } else {
      if ParentLeads(fs, dest, rel) {
        LinkMember(fs, dest, d, rel, item.node.target, overwrite);
      } else if overwrite && Displaced(fs, dest, d, rel) {
        LinkReplaces(fs, dest, d, rel, item.node.target);
      } else {
        LinkSpills(fs, dest, d, rel, item.node.target, overwrite);
      }
    }
  }

  // ----- an archive of one file or link, exactly

  lemma {:induction false} LeafTour(src: FS, at: Path, rel: Path)
    requires at in src && src[at] != Dir
    ensures Tour(src, at, rel) == [Item(rel, src[at])]
  {
    TourDef(src, at, rel);
  }

  /** A copy of a leaf is one entry more. */
  lemma {:induction false} LeafHolds(r: FS, dst: FS, src: FS, at: Path, to: Path)
    requires Tree(src) && at in src && (src[at].File? || src[at].Link?) && to !in dst
    ensures Holds(r, dst, src, at, to) <==> r == dst[to := src[at]]
  {
    var one := dst[to := src[at]];
    assert at + to[|to|..] == at;
    forall q ensures Copied(src, at, to, q) <==> q == to {
      if Copied(src, at, to, q) && q != to {
        CopiedName(src, at, to, q);
      }
    }
    if Holds(r, dst, src, at, to) {
      assert forall q :: q in r <==> q in one;
      assert forall q | q in r :: r[q] == one[q];
    }
  }

  lemma {:induction false} OneAdvance(p: Progress, m: Member, dest: string, overwrite: bool, maxEntries: int,
                                      name: string)
    requires Tree(p.fs) && p.ok && SafeName(m.name) == Name(name) && m.kind != TypeOther
    requires maxEntries <= 0 || p.written < maxEntries
    ensures var w, r := WriteMember(p.fs, m, JoinPath(dest, name), overwrite, p.budget),
                        ExtractFrom(p, [m], 0, dest, overwrite, maxEntries);
            r.fs == w.fs && r.ok == w.ok
  {
    hide Tree, SafeName, JoinPath, WriteMember;
  }

  lemma {:induction false} OneMemberList(item: Item)
    requires !item.node.Special?
    ensures Members([item]) == [MemberOf(item)]
  {
    hide MemberOf;
    assert [item][1..] == [];
  }

  lemma {:induction false} OneWithin(item: Item, budget: int, maxEntries: int)
    requires Admitted([item], 0, budget, maxEntries) && item.node.File?
    ensures Affords(budget, |item.node.bytes|)
  {
    hide Admitted, Affords;
    AdmittedRest([item], 0, budget, maxEntries);
  }

  /**
   The archive of a file or a link, extracted into an empty directory that the destination
   leads to as written, gives the copy and nothing else exactly when the cleaned destination
   leads to a directory as well, or the directory made in its stead is where a link goes that
   may overwrite it.
   */
  lemma {:induction false} LeafExactly(src: FS, path: string, dst: FS, dest: string, d: Path, overwrite: bool,
                                       limits: Limits)
    requires Tree(src) && Archivable(src, path)
    requires var node := src[ResolvePath(src, path, false).path]; node.File? || node.Link?
    requires Tree(dst) && RawDest(dst, dest, d) && Vacated(dst, d)
    requires Admitted(Visits(src, path), 0, limits.maxBytes, limits.maxEntries)
    ensures var members := Named(Visits(src, path), path, Prefix(path));
            var r := ExtractFrom(Progress(dst, 0, limits.maxBytes, true), members, 0, dest, overwrite,
                                 limits.maxEntries);
            r.ok && Holds(r.fs, dst, src, ResolvePath(src, path, false).path, d + [BaseName(path)])
            <==> || Leads(dst, CleanDest(dest))
                 || (&& overwrite && src[ResolvePath(src, path, false).path].Link?
                     && Displaced(dst, dest, d, [BaseName(path)]))
  {
    hide *;
    ArchivableStart(src, path);
    var at, base := ResolvePath(src, path, false).path, BaseName(path);
    var item := Item([base], src[at]);
    LeafTour(src, at, [base]);
    TourStems(src, at, [base], base);
    NamedIsMembers([item], path);
    OneMemberList(item);
    RootedTop(dst, d, base);
    RootedNames(dst, d, [base]);
    if item.node.File? {
      OneWithin(item, limits.maxBytes, limits.maxEntries);
    }
    ItemExactly(dst, item, dest, d, overwrite, limits.maxBytes);
    var p := Progress(dst, 0, limits.maxBytes, true);
    var r := ExtractFrom(p, [MemberOf(item)], 0, dest, overwrite, limits.maxEntries);
    LeafHolds(r.fs, dst, src, at, d + [base]);
    MemberName(item);
    TargetIs(dest, [base]);
    OneAdvance(p, MemberOf(item), dest, overwrite, limits.maxEntries, Join([base], SLASH));
    TopParent(dst, dest, base);
  }

  lemma {:induction false} TopParent(fs: FS, dest: string, base: string)
    requires Tree(fs)
    ensures ParentLeads(fs, dest, [base]) == Leads(fs, CleanDest(dest))
  {
    hide Leads, CleanDest;
    assert CleanDest(dest) + [base][..0] == CleanDest(dest);
  }

  // ----- a destination where it goes wrong

  /** With `/a` a link to `/c/e`, the path `/a/../b` is `/c/b` and not `/b`. */
  ghost function Linked(a: string, b: string, c: string, e: string): (fs: FS)
  {
    map[[] := Dir][[c] := Dir][[a] := Link(Spelled([c, e]))][[c, e] := Dir][[c, b] := Dir]
  }

  ghost predicate Four(a: string, b: string, c: string, e: string)
  {
    && NameOk(a) && NameOk(b) && NameOk(c) && NameOk(e)
    && a != b && a != c && b != c && b != e
  }

  lemma {:induction false} OnlyRoot()
    ensures Tree(map[[] := Dir])
  {
  }

  lemma {:induction false} Grow(fs: FS, dir: Path, name: string, node: Node)
    requires Tree(fs) && dir in fs && fs[dir] == Dir && NameOk(name) && dir + [name] !in fs
    ensures Tree(fs[dir + [name] := node])
  {
    hide Tree;
    var p := dir + [name];
    assert Parent(p) == dir && p[|p| - 1] == name;
    CreateKeepsTree(fs, p, node);
  }

  lemma {:induction false} LinkedTree(a: string, b: string, c: string, e: string)
    requires Four(a, b, c, e)
    ensures var fs := Linked(a, b, c, e);
            && Tree(fs) && [] in fs && fs[[]] == Dir && [a] in fs && fs[[a]] == Link(Spelled([c, e]))
            && [c] in fs && fs[[c]] == Dir && [c, e] in fs && fs[[c, e]] == Dir && Vacated(fs, [c, b]) && [b] !in fs
  {
    hide Tree, NameOk, Spelled;
    var root: FS := map[[] := Dir];
    OnlyRoot();
    assert [] + [c] == [c] && [] + [a] == [a] && [c] + [e] == [c, e] && [c] + [b] == [c, b];
    Grow(root, [], c, Dir);
    var one := root[[c] := Dir];
    Grow(one, [], a, Link(Spelled([c, e])));
    var two := one[[a] := Link(Spelled([c, e]))];
    assert [c, e] !in two;
    Grow(two, [c], e, Dir);
    var three := two[[c, e] := Dir];
    assert [c, b] !in three;
    Grow(three, [c], b, Dir);
    var fs := Linked(a, b, c, e);
    assert fs == three[[c, b] := Dir];
    assert Vacated(fs, [c, b]);
  }

  lemma {:induction false} SidewaysComponents(a: string, b: string, c: string, e: string)
    requires Four(a, b, c, e)
    ensures var dest := Spelled([a, "..", b]);
            && NUL !in dest && Components(dest) == [a, "..", b] && Lexical(true, [a, "..", b], []) == [b]
            && Components(TrimLeft(Spelled([c, e]))) == [c, e] && LinkBase(Spelled([c, e]), []) == []
  {
    hide Components, TrimLeft;
    SpelledComponents([a, "..", b]);
    SpelledComponents([c, e]);
    ComponentsTrimLeft(Spelled([c, e]));
    assert [a, "..", b][1..] == ["..", b] && ["..", b][1..] == [b] && [b][1..] == [] && [a][..0] == [];
    assert [] + [a] == [a] && [] + [b] == [b];
    assert Lexical(true, ["..", b], [a]) == Lexical(true, [b], []);
    assert Lexical(true, [b], []) == [b];
  }

  lemma {:induction false} ReachedStep(fs: FS, dir: Path, name: string, rest: seq<string>, hops: nat)
    requires Tree(fs) && dir in fs && fs[dir] == Dir && NameOk(name) && hops <= MAX_SYMLINKS
    requires dir + [name] in fs && fs[dir + [name]] == Dir
    ensures Reached(fs, dir, [name] + rest, false, hops, true) == Reached(fs, dir + [name], rest, false, hops, true)
  {
    hide Components, TrimLeft, Tree;
    assert ([name] + rest)[1..] == rest;
  }

  lemma {:induction false} ReachedUp(fs: FS, dir: Path, rest: seq<string>, hops: nat)
    requires Tree(fs) && Solid(fs, dir) && hops <= MAX_SYMLINKS
    ensures Solid(fs, Pop(dir)) &&
            Reached(fs, dir, [".."] + rest, false, hops, true) == Reached(fs, Pop(dir), rest, false, hops, true)
  {
    hide Components, TrimLeft, Tree;
    PopSolid(fs, dir);
    assert ([".."] + rest)[1..] == rest;
  }

  lemma {:induction false} ReachedLink(fs: FS, name: string, target: seq<string>, place: Path, rest: seq<string>)
    requires Tree(fs) && [name] in fs && fs[[name]].Link? && NameOk(name) && rest != []
    requires LinkBase(fs[[name]].target, []) == [] && Components(TrimLeft(fs[[name]].target)) == target
    requires Solid(fs, []) && Solid(fs, place) && Reached(fs, [], target, false, 1, true) == At(place, 1)
    ensures Reached(fs, [], [name] + rest, false, 0, true) == Reached(fs, place, rest, false, 1, true)
  {
    assert fs[[]] == Dir;
    hide Components, TrimLeft, Tree;
    assert ([name] + rest)[1..] == rest && [] + [name] == [name];
  }

  lemma {:induction false} ReachedEnd(fs: FS, dir: Path, hops: nat)
    requires Tree(fs) && Solid(fs, dir) && hops <= MAX_SYMLINKS
    ensures Reached(fs, dir, [], false, hops, true) == At(dir, hops)
  {
  }

  lemma {:induction false} PlaceDef(fs: FS, parts: seq<string>)
    requires Tree(fs)
    ensures Solid(fs, []) && PlaceOf(fs, parts) == Reached(fs, [], parts, false, 0, true)
  {
    RootIsSolid(fs);
  }

  lemma {:induction false} LinkedSolid(a: string, b: string, c: string, e: string)
    requires Four(a, b, c, e)
    ensures var fs := Linked(a, b, c, e);
            && NameOk(a) && NameOk(b) && NameOk(c) && NameOk(e)
            && Solid(fs, [c]) && Solid(fs, [c, e]) && Solid(fs, [c, b])
            && [c, b] in fs && fs[[c, b]] == Dir && fs[[a]].Link? && 1 <= MAX_SYMLINKS
  {
    hide Linked, NameOk, Tree;
    LinkedTree(a, b, c, e);
  }

  lemma {:induction false} SidewaysSteps(a: string, b: string, c: string, e: string)
    ensures [] + [c] == [c] && [c] + [e] == [c, e] && [c] + [b] == [c, b] && Pop([c, e]) == [c]
    ensures [e] + [] == [e] && [b] + [] == [b]
    ensures [a] + ["..", b] == [a, "..", b] && [".."] + [b] == ["..", b]
  {
  }

  lemma {:induction false} SidewaysPlace(a: string, b: string, c: string, e: string)
    requires Four(a, b, c, e)
    ensures Tree(Linked(a, b, c, e)) && PlaceOf(Linked(a, b, c, e), [a, "..", b]) == At([c, b], 1)
  {
    hide *;
    LinkedTree(a, b, c, e);
    SidewaysComponents(a, b, c, e);
    LinkedSolid(a, b, c, e);
    SidewaysSteps(a, b, c, e);
    var fs := Linked(a, b, c, e);
    PlaceDef(fs, [a, "..", b]);
    ReachedStep(fs, [], c, [e], 1);
    ReachedStep(fs, [c], e, [], 1);
    ReachedEnd(fs, [c, e], 1);
    ReachedLink(fs, a, [c, e], [c, e], ["..", b]);
    ReachedUp(fs, [c, e], [b], 1);
    ReachedStep(fs, [c], b, [], 1);
    ReachedEnd(fs, [c, b], 1);
  }

  lemma {:induction false} SidewaysParent(fs: FS, dest: string, b: string, f: string)
    requires Tree(fs) && NUL !in dest && Lexical(true, Components(dest), []) == [b] && [b] !in fs
    requires NameOk(b) && NameOk(f)
    ensures MakeParent(fs, Target(dest, [f])) == Effect(fs[[b] := Dir], true)
  {
    assert NamesOk([f]) && StepsOk([]);
    hide *;
    TargetIs(dest, [f]);
    TargetComponents(dest, [f]);
    assert [b] + [f][..0] == [b];
    MakeParentIs(fs, Target(dest, [f]));
    MkdirAllParts(fs, DirName(Target(dest, [f])));
    RootLeads(fs);
    assert [] + [b] == [b];
    MkdirFromLast(fs, [], b, 0);
  }

  /**
   The parent of a member is made from the lexically cleaned destination. So with
   `/a` a link to `/c/e`, unpacking one file `f` into the empty directory `/c/b`
   spelled `/a/../b` also makes `/b`.
   */
  lemma {:induction false} DotDotSpills(a: string, b: string, c: string, e: string, f: string, body: seq<int>,
                                        limits: Limits)
    requires Four(a, b, c, e) && NameOk(f) && Plain([f])
    ensures var fs, dest := Linked(a, b, c, e), Spelled([a, "..", b]);
            && Tree(fs) && PlaceOf(fs, Components(dest)) == At([c, b], 1) && Vacated(fs, [c, b]) && [b] !in fs
            && [b] in ExtractFrom(Progress(fs, 0, limits.maxBytes, true), [Member(f, TypeReg, "", body)], 0, dest,
                                  false, limits.maxEntries).fs
  {
    assert NameOk(b) && NamesOk([f]) && Join([f], SLASH) == f && f + "" == f;
    LinkedTree(a, b, c, e);
    SidewaysComponents(a, b, c, e);
    SidewaysPlace(a, b, c, e);
    var fs, dest := Linked(a, b, c, e), Spelled([a, "..", b]);
    hide *;
    var m, target := Member(f, TypeReg, "", body), Target(dest, [f]);
    SidewaysParent(fs, dest, b, f);
    TargetIs(dest, [f]);
    SafePlain([f], "");
    WriteFileExtends(fs, target, body, limits.maxBytes);
    OneMember(Progress(fs, 0, limits.maxBytes, true), m, dest, limits.maxEntries, f);
    ExtendsHas(MakeParent(fs, target).fs, WriteFile(fs, target, body, false, limits.maxBytes).fs, [b]);
  }

  lemma {:induction false} ExtendsHas(small: FS, large: FS, p: Path)
    requires Extends(small, large) && p in small
    ensures p in large
  {
  }

  lemma {:induction false} MakeParentIs(fs: FS, target: string)
    requires Tree(fs) && |DirName(target)| > 0 && DirName(target)[0] == SLASH
    ensures MakeParent(fs, target) == MkdirAll(fs, DirName(target))
  {
    hide DirName, MkdirAll, Tree;
  }

  lemma {:induction false} RootLeads(fs: FS)
    requires Tree(fs)
    ensures Leads(fs, []) && PlaceOf(fs, []) == At([], 0)
  {
    RootIsSolid(fs);
    var none: seq<string> := [];
    assert none[..0] == none;
  }

  lemma {:induction false} WriteFileExtends(fs: FS, target: string, body: seq<int>, budget: int)
    requires Tree(fs)
    ensures Extends(MakeParent(fs, target).fs, WriteFile(fs, target, body, false, budget).fs)
  {
    hide Tree, ResolvePath, MakeParent, NameOk;
    var made := MakeParent(fs, target);
    if made.ok && !LstatOk(made.fs, target) {
      OpenSeesNothingNew(made.fs, target);
    }
  }

  lemma {:induction false} OneMember(p: Progress, m: Member, dest: string, maxEntries: int, name: string)
    requires Tree(p.fs) && p.ok && SafeName(m.name) == Name(name) && m.kind == TypeReg
    requires maxEntries <= 0 || p.written < maxEntries
    ensures ExtractFrom(p, [m], 0, dest, false, maxEntries).fs
            == WriteFile(p.fs, JoinPath(dest, name), m.body, false, p.budget).fs
  {
    hide Tree, SafeName, JoinPath, WriteFile;
  }
}
