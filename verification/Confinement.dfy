/**
 What unpacking can touch. A member is written wherever its path leads, through links
 below the destination too, so an archive can leave its destination by a link of its own.
 This module says where one member lands, and which archives stay inside.
 */
module Confinement {
  import opened Text
  import opened Paths
  import opened RootFs
  import opened FileOps
  import opened Reaching
  import opened Extract
  import opened Rebuild
  import opened RoundTrip
  import opened Destination

  /** Every entry that came, went or changed lies below `d`. */
  ghost predicate OnlyBelow(fs: FS, next: FS, d: Path)
  {
    forall p | (p in fs || p in next) && !(d < p) :: p in fs && p in next && next[p] == fs[p]
  }

  // ----- where one member lands

  /** The path to a member's parent, read as written, leads to the directory `q`. */
  ghost predicate LeadsInto(fs: FS, dest: string, rel: Path, q: Path)
    requires Tree(fs) && rel != []
  {
    var lead := Components(dest) + rel[..|rel| - 1];
    Leads(fs, lead) && PlaceOf(fs, lead).At? && PlaceOf(fs, lead).path == q
  }

  lemma {:induction false} TargetSplit(dest: string, rel: Path)
    requires NUL !in dest && rel != [] && NamesOk(rel)
    ensures var lead, name := Components(dest) + rel[..|rel| - 1], rel[|rel| - 1];
            && NUL !in Target(dest, rel) && Components(Target(dest, rel)) == lead + [name]
            && StepsOk(lead) && NameOk(name) && NamesOk(rel[..|rel| - 1])
  {
    hide *;
    var up, name := rel[..|rel| - 1], rel[|rel| - 1];
    CutLast(rel);
    TargetIs(dest, rel);
    TargetComponents(dest, rel);
    ComponentsSteps(dest);
    NamesAreSteps(up);
    StepsConcat(Components(dest), up);
    CatAssoc(Components(dest), up, [name]);
  }

  lemma {:induction false} IntoDir(fs: FS, dest: string, rel: Path, q: Path)
    requires Tree(fs) && rel != [] && LeadsInto(fs, dest, rel, q)
    ensures q in fs && fs[q] == Dir && PlaceOf(fs, Components(dest) + rel[..|rel| - 1]).At?
    ensures PlaceOf(fs, Components(dest) + rel[..|rel| - 1]).path == q
  {
    hide Tree, Components, Reached;
    LeadsAt(fs, Components(dest) + rel[..|rel| - 1], 0);
  }

  /** A target whose place is free resolves to that place. */
  lemma {:induction false} ResolveInto(fs: FS, dest: string, rel: Path, q: Path, follow: bool)
    requires Tree(fs) && NUL !in dest && rel != [] && NamesOk(rel) && LeadsInto(fs, dest, rel, q)
    requires q + [rel[|rel| - 1]] !in fs
    ensures ResolvePath(fs, Target(dest, rel), follow) == Ok(q + [rel[|rel| - 1]])
  {
    hide LeadsInto, Reached, Tree, Components, ResolvePath, Target, NameOk;
    var lead, name := Components(dest) + rel[..|rel| - 1], rel[|rel| - 1];
    TargetSplit(dest, rel);
    IntoDir(fs, dest, rel, q);
    var at := PlaceOf(fs, lead);
    ResolveAgrees(fs, Target(dest, rel), follow);
    FollowIsMoot(fs, [], lead, 0, true, follow);
    ReachedSplit(fs, [], lead, [name], true, 0, follow);
    ReachedMissing(fs, at.path, name, at.hops, follow);
  }

  lemma {:induction false} CreateInto(fs: FS, q: Path, name: string, node: Node)
    requires Tree(fs) && q in fs && fs[q] == Dir && NameOk(name) && q + [name] !in fs
    ensures CreateAt(fs, q + [name], node) == Effect(fs[q + [name] := node], true)
    ensures Tree(fs[q + [name] := node])
  {
    var p := q + [name];
    assert Parent(p) == q && p[|p| - 1] == name;
    CreateKeepsTree(fs, p, node);
  }

  lemma {:induction false} FileInto(fs: FS, target: string, place: Path, body: seq<int>, overwrite: bool, budget: int)
    requires Tree(fs) && Affords(budget, |body|) && MakeParent(fs, target) == Effect(fs, true) && place !in fs
    requires ResolvePath(fs, target, false) == Ok(place) && ResolvePath(fs, target, true) == Ok(place)
    requires CreateAt(fs, place, File([])) == Effect(fs[place := File([])], true)
    ensures WriteFile(fs, target, body, overwrite, budget)
            == Wrote(fs[place := File(body)], Spend(budget, |body|), true)
  {
    hide Tree, MakeParent, ResolvePath, Fill, CreateAt;
    FillMember(fs, place, body);
  }

  lemma {:induction false} LinkInto(fs: FS, target: string, place: Path, link: string, overwrite: bool)
    requires Tree(fs) && MakeParent(fs, target) == Effect(fs, true) && place !in fs
    requires ResolvePath(fs, target, false) == Ok(place)
    requires CreateAt(fs, place, Link(link)) == Effect(fs[place := Link(link)], true)
    ensures WriteSymlink(fs, target, link, overwrite) == Effect(fs[place := Link(link)], true)
  {
    hide Tree, MakeParent, ResolvePath, CreateAt;
  }

  /** With a parent that is there, the member is written at its place, wherever that is. */
  lemma {:induction false} WriteInto(fs: FS, item: Item, dest: string, q: Path, overwrite: bool, budget: int)
    requires Tree(fs) && NUL !in dest && item.rel != [] && NamesOk(item.rel) && LeadsInto(fs, dest, item.rel, q)
    requires q + [item.rel[|item.rel| - 1]] !in fs && ParentLeads(fs, dest, item.rel)
    requires (item.node.File? && Affords(budget, |item.node.bytes|)) || item.node.Link?
    ensures WriteMember(fs, MemberOf(item), Target(dest, item.rel), overwrite, budget)
            == Wrote(fs[q + [item.rel[|item.rel| - 1]] := item.node],
                     if item.node.File? then Spend(budget, |item.node.bytes|) else budget, true)
  {
    hide Tree, LeadsInto, ParentLeads, WriteFile, WriteSymlink, Target, Affords, Spend, Join, MakeParent, CreateAt,
         ResolvePath, NamesOk;
    var rel, name := item.rel, item.rel[|item.rel| - 1];
    var target, place := Target(dest, rel), q + [name];
    CutLast(rel);
    IntoDir(fs, dest, rel, q);
    ParentMember(fs, dest, rel);
    ResolveInto(fs, dest, rel, q, false);
    ResolveInto(fs, dest, rel, q, true);
    match item.node {
      case File(bytes) =>
        CreateInto(fs, q, name, File([]));
        FileInto(fs, target, place, bytes, overwrite, budget);
      case Link(link) =>
        CreateInto(fs, q, name, Link(link));
        LinkInto(fs, target, place, link, overwrite);
    }
  }

  // ----- the parent, when the cleaned path runs out of hops

  /** Every prefix names a directory, or is too many links away. */
  ghost predicate LeadsOrTires(fs: FS, parts: seq<string>)
    requires Tree(fs)
  {
    forall k | 0 <= k <= |parts| :: DirAt(fs, parts[..k]) || PlaceOf(fs, parts[..k]) == Lost(TooManyLinks)
  }

  lemma {:induction false} MkdirStuck(fs: FS, parts: seq<string>, k: nat)
    requires Tree(fs) && StepsOk(parts) && k <= |parts| && LeadsOrTires(fs, parts)
    ensures MkdirFrom(fs, parts, k).fs == fs
    decreases |parts| - k
  {
    hide Tree, DirAt, PlaceOf, Mkdir, StatIsDir, StepsOk, Spelled;
    if k < |parts| {
      StepsPrefix(parts, k + 1);
      StatIsDirAt(fs, parts[..k + 1]);
      if !DirAt(fs, parts[..k + 1]) {
        MkdirTooFar(fs, parts[..k + 1]);
      }
      MkdirStuck(fs, parts, k + 1);
    }
  }

  /** Two ways to one directory lead on alike, until the hops of one of them run out. */
  lemma {:induction false} OnwardAlike(fs: FS, a: seq<string>, b: seq<string>, d: Path, up: Path)
    requires Tree(fs) && PlaceOf(fs, a).At? && PlaceOf(fs, a).path == d && PlaceOf(fs, b).At?
    requires PlaceOf(fs, b).path == d && DirAt(fs, a + up)
    ensures DirAt(fs, b + up) || PlaceOf(fs, b + up) == Lost(TooManyLinks)
    ensures DirAt(fs, b + up) ==> PlaceOf(fs, b + up).path == PlaceOf(fs, a + up).path
  {
    hide Tree, Reached;
    RootIsSolid(fs);
    if up == [] {
      assert a + up == a && b + up == b;
    } else {
      ReachedSplit(fs, [], a, up, false, 0, true);
      ReachedSplit(fs, [], b, up, false, 0, true);
      HopsMoot(fs, d, up, PlaceOf(fs, a).hops, PlaceOf(fs, b).hops);
    }
  }

  lemma {:induction false} PrefixOfCat(a: seq<string>, b: seq<string>, k: nat)
    requires k <= |a + b|
    ensures (a + b)[..k] == if k <= |a| then a[..k] else a + b[..k - |a|]
  {
  }

  lemma {:induction false} PrefixAfter(a: seq<string>, b: seq<string>, k: nat)
    requires k <= |b|
    ensures (a + b)[..|a| + k] == a + b[..k]
  {
  }

  lemma {:induction false} DestParts(fs: FS, dest: string, d: Path)
    requires Tree(fs) && Dest(fs, dest, d)
    ensures var raw, clean := Components(dest), CleanDest(dest);
            && NUL !in dest && Leads(fs, raw) && PlaceOf(fs, raw).At? && PlaceOf(fs, raw).path == d
            && Leads(fs, clean) && PlaceOf(fs, clean).At? && PlaceOf(fs, clean).path == d
  {
    hide Tree, Leads, PlaceOf, Components, CleanDest;
  }

  lemma {:induction false} CleanTires(fs: FS, dest: string, d: Path, rel: Path, q: Path)
    requires Tree(fs) && Dest(fs, dest, d) && rel != [] && LeadsInto(fs, dest, rel, q)
    ensures LeadsOrTires(fs, CleanDest(dest) + rel[..|rel| - 1])
  {
    hide Tree, Dest, DirAt, PlaceOf, Leads, Components, CleanDest;
    var raw, clean, up := Components(dest), CleanDest(dest), rel[..|rel| - 1];
    DestParts(fs, dest, d);
    forall k | 0 <= k <= |clean + up|
      ensures DirAt(fs, (clean + up)[..k]) || PlaceOf(fs, (clean + up)[..k]) == Lost(TooManyLinks)
    {
      PrefixOfCat(clean, up, k);
      if k <= |clean| {
        LeadsAt(fs, clean, k);
      } else {
        var j := k - |clean|;
        PrefixAfter(raw, up, j);
        LeadsAt(fs, raw + up, |raw| + j);
        OnwardAlike(fs, raw, clean, d, up[..j]);
      }
    }
  }

  /** When making the parent fails without a trace, so does writing the member. */
  lemma {:induction false} NoParentNoTrace(fs: FS, target: string, m: Member, overwrite: bool, budget: int)
    requires Tree(fs) && MakeParent(fs, target) == Effect(fs, false) && (m.kind == TypeReg || m.kind == TypeSymlink)
    ensures WriteMember(fs, m, target, overwrite, budget) == Wrote(fs, budget, false)
  {
    hide Tree, ResolvePath, MakeParent;
  }

  lemma {:induction false} OneEntry(fs: FS, d: Path, q: Path, name: string, node: Node)
    requires q + [name] !in fs
    ensures OnlyBelow(fs, fs[q + [name] := node], d) <==> d <= q
  {
    var place, next := q + [name], fs[q + [name] := node];
    assert place in next;
    assert d < place <==> d <= q by {
      assert place[..|q|] == q;
      if d < place {
        assert q[..|d|] == place[..|d|];
      }
    }
  }

  /**
   A file or link whose parent path leads to a directory `q`, through links or not, and whose
   place there is free: it is written there exactly when the cleaned path to its parent leads
   as well, otherwise nothing is; and what is written stays below the destination exactly
   when `q` is the destination or below it.
   */
  lemma {:induction false} ItemLands(fs: FS, item: Item, dest: string, d: Path, q: Path, overwrite: bool, budget: int)
    requires Tree(fs) && Dest(fs, dest, d) && item.rel != [] && NamesOk(item.rel)
    requires LeadsInto(fs, dest, item.rel, q) && q + [item.rel[|item.rel| - 1]] !in fs
    requires (item.node.File? && Affords(budget, |item.node.bytes|)) || item.node.Link?
    ensures var w := WriteMember(fs, MemberOf(item), Target(dest, item.rel), overwrite, budget);
            && (w.ok <==> ParentLeads(fs, dest, item.rel))
            && w.fs == (if w.ok then fs[q + [item.rel[|item.rel| - 1]] := item.node] else fs)
            && (OnlyBelow(fs, w.fs, d) <==> !w.ok || d <= q)
  {
    var m := MemberOf(item);
    assert m.kind == TypeReg || m.kind == TypeSymlink;
    hide *;
    var rel, name := item.rel, item.rel[|item.rel| - 1];
    var target := Target(dest, rel);
    DestParts(fs, dest, d);
    OneEntry(fs, d, q, name, item.node);
    Unchanged(fs, d);
    if ParentLeads(fs, dest, rel) {
      WriteInto(fs, item, dest, q, overwrite, budget);
    } else {
      CleanTires(fs, dest, d, rel, q);
      ParentIs(fs, dest, rel);
      ParentAdds(fs, dest, rel);
      MkdirStuck(fs, CleanDest(dest) + rel[..|rel| - 1], 0);
      NoParentNoTrace(fs, target, m, overwrite, budget);
    }
  }

  lemma {:induction false} Unchanged(fs: FS, d: Path)
    ensures OnlyBelow(fs, fs, d)
  {
  }

  // ----- making directories below the destination

  /** No proper prefix of `rel` below `d` is a link. */
  ghost predicate ClearWay(fs: FS, d: Path, rel: Path)
  {
    forall k | 0 < k < |rel| && d + rel[..k] in fs :: !fs[d + rel[..k]].Link?
  }

  /** Nothing is a link at `p`. */
  ghost predicate NoLink(fs: FS, p: Path)
  {
    p in fs ==> !fs[p].Link?
  }

  /** Only directories below `d` were added. */
  ghost predicate DirsBelow(fs: FS, large: FS, d: Path)
  {
    Extends(fs, large) && forall p | p in large && p !in fs :: large[p] == Dir && d < p
  }

  /** On its way to where the path already leads, `MkdirAll` changes nothing. */
  lemma {:induction false} MkdirSkips(fs: FS, parts: seq<string>, more: seq<string>, k: nat)
    requires Tree(fs) && StepsOk(parts) && Leads(fs, parts) && k <= |parts|
    ensures MkdirFrom(fs, parts + more, k) == MkdirFrom(fs, parts + more, |parts|)
    decreases |parts| - k
  {
    hide Tree, Leads, DirAt, Mkdir, StatIsDir, StepsOk, Spelled;
    if k < |parts| {
      assert (parts + more)[..k + 1] == parts[..k + 1];
      LeadsAt(fs, parts, k + 1);
      StepsPrefix(parts, k + 1);
      StatIsDirAt(fs, parts[..k + 1]);
      MkdirSkips(fs, parts, more, k + 1);
    }
  }

  /** A file in the way is no directory. */
  lemma {:induction false} FileStops(fs: FS, parts: seq<string>, name: string)
    requires Tree(fs) && DirAt(fs, parts) && NameOk(name) && PlaceOf(fs, parts).path + [name] in fs
    requires var node := fs[PlaceOf(fs, parts).path + [name]]; node != Dir && !node.Link?
    ensures !DirAt(fs, parts + [name])
  {
    hide Tree, Reached;
    RootIsSolid(fs);
    var at := PlaceOf(fs, parts);
    ReachedSplit(fs, [], parts, [name], false, 0, true);
    ReachedSolid(fs, at.path, name, at.hops);
  }

  lemma {:induction false} ReachedSolid(fs: FS, dir: Path, name: string, hops: nat)
    requires Tree(fs) && dir in fs && fs[dir] == Dir && NameOk(name) && hops <= MAX_SYMLINKS
    requires dir + [name] in fs && !fs[dir + [name]].Link?
    ensures Reached(fs, dir, [name], false, hops, true) == At(dir + [name], hops)
  {
    hide Components, TrimLeft, Tree;
    assert [name][1..] == [];
  }

  lemma {:induction false} MkdirStep(fs: FS, parts: seq<string>, k: nat)
    requires Tree(fs) && k < |parts|
    ensures var built := Spelled(parts[..k + 1]);
            var made := Mkdir(fs, built);
            MkdirFrom(fs, parts, k) == if made.ok then MkdirFrom(made.fs, parts, k + 1)
                                       else if StatIsDir(fs, built) then MkdirFrom(fs, parts, k + 1)
                                       else Effect(fs, false)
  {
    hide Tree, Mkdir, StatIsDir, Spelled;
  }

  lemma {:induction false} MkdirEnd(fs: FS, parts: seq<string>)
    requires Tree(fs)
    ensures MkdirFrom(fs, parts, |parts|) == Effect(fs, true)
  {
  }

  lemma {:induction false} OneDirBelow(fs: FS, d: Path, rel: Path, k: nat)
    requires k < |rel| && d + rel[..k + 1] !in fs
    ensures DirsBelow(fs, fs[d + rel[..k + 1] := Dir], d)
  {
    assert d < d + rel[..k + 1];
  }

  lemma {:induction false} DirsBelowTrans(a: FS, b: FS, c: FS, d: Path)
    requires DirsBelow(a, b, d) && DirsBelow(b, c, d)
    ensures DirsBelow(a, c, d)
  {
  }

  lemma {:induction false} DirsBelowRefl(fs: FS, d: Path)
    ensures DirsBelow(fs, fs, d)
  {
  }

  lemma {:induction false} DirsDownMore(fs: FS, large: FS, d: Path, rel: Path, k: nat)
    requires k < |rel| && DirsDown(fs, d, rel, k) && Extends(fs, large)
    requires d + rel[..k + 1] in large && large[d + rel[..k + 1]] == Dir
    ensures DirsDown(large, d, rel, k + 1)
  {
    forall j | 0 <= j <= k + 1 ensures d + rel[..j] in large && large[d + rel[..j]] == Dir {
      if j <= k {
        assert d + rel[..j] in fs;
      }
    }
  }

  lemma {:induction false} ClearMore(fs: FS, d: Path, rel: Path, place: Path)
    requires ClearWay(fs, d, rel)
    ensures ClearWay(fs[place := Dir], d, rel)
  {
  }

  lemma {:induction false} StepNames(parts: seq<string>, d: Path, rel: Path, k: nat)
    requires StepsOk(parts) && NamesOk(rel) && k < |rel|
    ensures NameOk(rel[k]) && StepsOk(parts + rel[..k + 1])
    ensures (parts + rel)[..|parts| + k + 1] == parts + rel[..k + 1] == parts + rel[..k] + [rel[k]]
    ensures d + rel[..k + 1] == d + rel[..k] + [rel[k]]
  {
    assert NamesOk(rel[..k + 1]);
    NamesAreSteps(rel[..k + 1]);
    StepsConcat(parts, rel[..k + 1]);
  }

  /**
   From a path that leads to `d`, going on through `rel` without passing a link,
   `MkdirAll` only adds directories below `d`; when it succeeds they are all there.
   */
  lemma {:induction false} MkdirBelow(fs: FS, parts: seq<string>, d: Path, rel: Path, k: nat)
    requires Tree(fs) && StepsOk(parts) && Leads(fs, parts) && PlaceOf(fs, parts).At? && PlaceOf(fs, parts).path == d
    requires NamesOk(rel) && k <= |rel| && DirsDown(fs, d, rel, k) && ClearWay(fs, d, rel)
    ensures var r := MkdirFrom(fs, parts + rel, |parts| + k);
            DirsBelow(fs, r.fs, d) && (r.ok && NoLink(fs, d + rel) ==> DirsDown(r.fs, d, rel, |rel|))
    decreases |rel| - k
  {
    hide *;
    var all := parts + rel;
    DirsBelowRefl(fs, d);
    if k == |rel| {
      MkdirEnd(fs, all);
    } else {
      var place, pre := d + rel[..k + 1], parts + rel[..k];
      StepNames(parts, d, rel, k);
      LeadsDown(fs, parts, d, rel, k);
      LeadsAt(fs, pre, 0);
      MkdirStep(fs, all, |parts| + k);
      MadeIsDirAt(fs, pre, rel[k]);
      StatIsDirAt(fs, parts + rel[..k + 1]);
      if place !in fs {
        MkdirBelowNew(fs, parts, d, rel, k);
      } else if fs[place] == Dir {
        DirsDownMore(fs, fs, d, rel, k) by { ExtendsSelf(fs); }
        MkdirBelow(fs, parts, d, rel, k + 1);
        LeadsStep(fs, pre, rel[k]);
        LeadsAt(fs, pre + [rel[k]], 0);
      } else if k + 1 == |rel| {
        MkdirEnd(fs, all);
        assert rel[..k + 1] == rel;
        if NoLink(fs, d + rel) {
          NoLinkAt(fs, d + rel);
          FileStops(fs, pre, rel[k]);
        }
      } else {
        ClearAt(fs, d, rel, k + 1);
        FileStops(fs, pre, rel[k]);
      }
    }
  }

  lemma {:induction false} ExtendsSelf(fs: FS)
    ensures Extends(fs, fs)
  {
  }

  lemma {:induction false} NoLinkAt(fs: FS, p: Path)
    requires NoLink(fs, p) && p in fs
    ensures !fs[p].Link?
  {
  }

  lemma {:induction false} ClearAt(fs: FS, d: Path, rel: Path, k: nat)
    requires ClearWay(fs, d, rel) && 0 < k < |rel| && d + rel[..k] in fs
    ensures !fs[d + rel[..k]].Link?
  {
  }

  lemma {:induction false} NoLinkMore(fs: FS, p: Path, place: Path)
    requires NoLink(fs, p)
    ensures NoLink(fs[place := Dir], p)
  {
  }

  /** The step that makes a directory. */
  lemma {:induction false} MkdirBelowNew(fs: FS, parts: seq<string>, d: Path, rel: Path, k: nat)
    requires Tree(fs) && StepsOk(parts) && Leads(fs, parts) && PlaceOf(fs, parts).At? && PlaceOf(fs, parts).path == d
    requires NamesOk(rel) && k < |rel| && DirsDown(fs, d, rel, k) && ClearWay(fs, d, rel)
    requires d + rel[..k + 1] !in fs
    requires Mkdir(fs, Spelled((parts + rel)[..|parts| + k + 1])) == Effect(fs[d + rel[..k + 1] := Dir], true)
    ensures var r := MkdirFrom(fs, parts + rel, |parts| + k);
            DirsBelow(fs, r.fs, d) && (r.ok && NoLink(fs, d + rel) ==> DirsDown(r.fs, d, rel, |rel|))
    decreases |rel| - k, 0
  {
    hide *;
    var place := d + rel[..k + 1];
    var next := fs[place := Dir];
    assert Tree(next);
    OneDirBelow(fs, d, rel, k);
    BelowExtends(fs, next, d);
    MkdirStep(fs, parts + rel, |parts| + k);
    LeadsStable(fs, next, parts);
    ClearMore(fs, d, rel, place);
    DirsDownMore(fs, next, d, rel, k);
    MkdirBelow(next, parts, d, rel, k + 1);
    DirsBelowTrans(fs, next, MkdirFrom(fs, parts + rel, |parts| + k).fs, d);
    if NoLink(fs, d + rel) {
      NoLinkMore(fs, d + rel, place);
    }
  }

  lemma {:induction false} BelowExtends(fs: FS, large: FS, d: Path)
    requires DirsBelow(fs, large, d)
    ensures Extends(fs, large) && AddsDirs(fs, large) && OnlyBelow(fs, large, d)
  {
  }

  // ----- one member of an archive

  /** At most the entry at `place` differs, and it has not become a link unless `link`. */
  ghost predicate OnlyAt(fs: FS, next: FS, place: Path, link: bool)
  {
    && (forall p | p != place && (p in fs || p in next) :: p in fs && p in next && next[p] == fs[p])
    && (place in next && next[place].Link? && !link ==> place in fs && fs[place].Link?)
  }

  lemma {:induction false} FileOnly(fs: FS, target: string, body: seq<int>, overwrite: bool, budget: int, place: Path)
    requires Tree(fs) && MakeParent(fs, target).ok
    requires var made := MakeParent(fs, target).fs;
             && ResolvePath(made, target, false) == Ok(place)
             && (NoLink(made, place) ==> ResolvePath(made, target, true) == Ok(place))
             && (overwrite ==> NoLink(made, place))
    ensures OnlyAt(MakeParent(fs, target).fs, WriteFile(fs, target, body, overwrite, budget).fs, place, false)
  {
    hide Tree, ResolvePath, MakeParent, NameOk;
  }

  lemma {:induction false} LinkOnly(fs: FS, target: string, link: string, overwrite: bool, place: Path)
    requires Tree(fs) && MakeParent(fs, target).ok
    requires var made := MakeParent(fs, target).fs;
             && ResolvePath(made, target, false) == Ok(place)
             && (overwrite && Tree(made - {place}) ==> ResolvePath(made - {place}, target, false) == Ok(place))
    ensures OnlyAt(MakeParent(fs, target).fs, WriteSymlink(fs, target, link, overwrite).fs, place, true)
  {
    hide Tree, ResolvePath, MakeParent, NameOk;
  }

  lemma {:induction false} ClearUp(fs: FS, d: Path, rel: Path)
    requires d in fs && fs[d] == Dir && rel != [] && ClearWay(fs, d, rel)
    ensures var up := rel[..|rel| - 1]; ClearWay(fs, d, up) && NoLink(fs, d + up) && DirsDown(fs, d, up, 0)
  {
    var up := rel[..|rel| - 1];
    forall k | 0 < k < |up| && d + up[..k] in fs ensures !fs[d + up[..k]].Link? {
      assert up[..k] == rel[..k];
    }
    assert d + up[..0] == d;
    if up == [] {
      assert d + up == d;
    }
  }

  lemma {:induction false} HousedFrom(fs: FS, d: Path, rel: Path)
    requires rel != [] && NamesOk(rel) && DirsDown(fs, d, rel[..|rel| - 1], |rel| - 1)
    ensures Housed(fs, d, rel)
  {
    var up := rel[..|rel| - 1];
    forall k | 0 <= k <= |rel| - 1 ensures d + rel[..k] in fs && fs[d + rel[..k]] == Dir {
      assert up[..k] == rel[..k];
    }
  }

  lemma {:induction false} DestIsDir(fs: FS, dest: string, d: Path)
    requires Tree(fs) && Dest(fs, dest, d)
    ensures d in fs && fs[d] == Dir
  {
    hide Tree, Reached, Components, CleanDest;
    LeadsAt(fs, Components(dest), 0);
  }

  /** Making the parent of a member only adds directories below the destination. */
  lemma {:induction false} ParentBelow(fs: FS, dest: string, d: Path, rel: Path)
    requires Tree(fs) && Dest(fs, dest, d) && rel != [] && NamesOk(rel) && ClearWay(fs, d, rel)
    ensures var made := MakeParent(fs, Target(dest, rel));
            DirsBelow(fs, made.fs, d) && (made.ok ==> Housed(made.fs, d, rel))
  {
    hide *;
    var clean, up := CleanDest(dest), rel[..|rel| - 1];
    DestParts(fs, dest, d);
    DestIsDir(fs, dest, d);
    ParentIs(fs, dest, rel);
    CutLast(rel);
    CleanSteps(dest);
    ClearUp(fs, d, rel);
    MkdirSkips(fs, clean, up, 0);
    MkdirBelow(fs, clean, d, up, 0);
    var made := MakeParent(fs, Target(dest, rel));
    if made.ok {
      HousedFrom(made.fs, d, rel);
    }
  }

  lemma {:induction false} CleanSteps(dest: string)
    requires NUL !in dest
    ensures StepsOk(CleanDest(dest))
  {
    hide Components, Lexical, StepsOk;
    ComponentsSteps(dest);
    LexicalRooted(Components(dest), []);
    NamesAreSteps(CleanDest(dest));
  }

  /** What writing a member may do: change entries below `d`, and make a link only in its own place. */
  ghost predicate Inside(fs: FS, next: FS, d: Path, rel: Path, link: bool)
  {
    && OnlyBelow(fs, next, d)
    && forall p | p in next && next[p].Link? && d < p :: (p in fs && fs[p].Link?) || (link && p == d + rel)
  }

  lemma {:induction false} InsideDirs(fs: FS, next: FS, d: Path, rel: Path, link: bool)
    requires DirsBelow(fs, next, d)
    ensures Inside(fs, next, d, rel, link)
  {
  }

  lemma {:induction false} InsideBoth(fs: FS, made: FS, next: FS, d: Path, rel: Path, link: bool)
    requires rel != [] && DirsBelow(fs, made, d) && OnlyAt(made, next, d + rel, link)
    ensures Inside(fs, next, d, rel, link)
  {
    assert d < d + rel;
    forall p | (p in fs || p in next) && !(d < p) ensures p in fs && p in next && next[p] == fs[p] {
      assert p != d + rel;
      if p in next {
        assert p in made;
      }
    }
  }

  /** Enough of the filesystem to find the destination, none of which unpacking takes away. */
  ghost predicate Footing(base: FS, fs: FS, dest: string, d: Path, overwrite: bool)
  {
    && Tree(base) && Dest(base, dest, d) && Extends(base, fs)
    && (overwrite ==> forall p | p in base :: !(d < p))
  }

  lemma {:induction false} FootingDest(base: FS, fs: FS, dest: string, d: Path, overwrite: bool)
    requires Tree(fs) && Footing(base, fs, dest, d, overwrite)
    ensures Dest(fs, dest, d) && NUL !in dest && RawDest(fs, dest, d)
  {
    hide Tree, Dest;
    DestStable(base, fs, dest, d);
    DestIsRaw(fs, dest, d);
    RawDestNul(fs, dest, d);
  }

  /** The footing holds on whatever only grew, or only changed below `d` when overwriting. */
  lemma {:induction false} FootingKept(base: FS, fs: FS, next: FS, dest: string, d: Path, overwrite: bool)
    requires Footing(base, fs, dest, d, overwrite)
    requires if overwrite then OnlyBelow(fs, next, d) else Extends(fs, next)
    ensures Footing(base, next, dest, d, overwrite)
  {
    hide Tree, Dest;
    forall p | p in base ensures p in next && next[p] == base[p] {
      assert p in fs;
    }
  }

  lemma {:induction false} FileInside(base: FS, fs: FS, dest: string, d: Path, rel: Path, body: seq<int>,
                                      overwrite: bool, budget: int)
    requires Tree(fs) && Footing(base, fs, dest, d, overwrite) && rel != [] && NamesOk(rel)
    requires ClearWay(fs, d, rel) && (overwrite ==> NoLink(fs, d + rel))
    ensures Inside(fs, WriteFile(fs, Target(dest, rel), body, overwrite, budget).fs, d, rel, false)
  {
    hide *;
    var target := Target(dest, rel);
    var made := MakeParent(fs, target);
    FootingDest(base, fs, dest, d, overwrite);
    ParentBelow(fs, dest, d, rel);
    var next := WriteFile(fs, target, body, overwrite, budget).fs;
    if made.ok {
      MadeDestThere(fs, made.fs, dest, d, d + rel);
      ResolveMember(made.fs, dest, d, rel, false);
      if NoLink(made.fs, d + rel) {
        NoLinkThere(made.fs, d + rel);
        ResolveMember(made.fs, dest, d, rel, true);
      }
      FileOnly(fs, target, body, overwrite, budget, d + rel);
      InsideBoth(fs, made.fs, next, d, rel, false);
    } else {
      FailedFile(fs, target, body, overwrite, budget);
      InsideDirs(fs, next, d, rel, false);
    }
  }

  lemma {:induction false} NoLinkThere(fs: FS, p: Path)
    requires NoLink(fs, p)
    ensures p in fs ==> !fs[p].Link?
  {
  }

  lemma {:induction false} FailedFile(fs: FS, target: string, body: seq<int>, overwrite: bool, budget: int)
    requires Tree(fs) && !MakeParent(fs, target).ok
    ensures WriteFile(fs, target, body, overwrite, budget).fs == MakeParent(fs, target).fs
  {
    hide Tree, MakeParent;
  }

  lemma {:induction false} FailedLink(fs: FS, target: string, link: string, overwrite: bool)
    requires Tree(fs) && !MakeParent(fs, target).ok
    ensures WriteSymlink(fs, target, link, overwrite).fs == MakeParent(fs, target).fs
  {
    hide Tree, MakeParent;
  }

  lemma {:induction false} MadeDestThere(fs: FS, made: FS, dest: string, d: Path, place: Path)
    requires Tree(fs) && Tree(made) && RawDest(fs, dest, d) && DirsBelow(fs, made, d)
    ensures RawDest(made, dest, d) && Extends(fs, made) && (NoLink(fs, place) ==> NoLink(made, place))
  {
    hide Tree, RawDest;
    RawDestStable(fs, made, dest, d);
  }

  /** With the entry in the member's own place removed, its target still resolves there. */
  lemma {:induction false} GoneResolves(base: FS, fs: FS, dest: string, d: Path, rel: Path)
    requires Tree(fs - {d + rel}) && Footing(base, fs, dest, d, true) && Housed(fs, d, rel)
    ensures ResolvePath(fs - {d + rel}, Target(dest, rel), false) == Ok(d + rel)
  {
    var gone := fs - {d + rel};
    assert d < d + rel;
    assert Footing(base, gone, dest, d, true);
    forall k | 0 <= k <= |rel| - 1 ensures d + rel[..k] in gone && gone[d + rel[..k]] == Dir {
      assert d + rel[..k] in fs && |d + rel[..k]| < |d + rel|;
    }
    assert Housed(gone, d, rel);
    hide *;
    FootingDest(base, gone, dest, d, true);
    NotThere(fs, d + rel);
    ResolveMember(gone, dest, d, rel, false);
  }

  lemma {:induction false} NotThere(fs: FS, p: Path)
    ensures p !in fs - {p}
  {
  }

  lemma {:induction false} LinkInside(base: FS, fs: FS, dest: string, d: Path, rel: Path, link: string, overwrite: bool)
    requires Tree(fs) && Footing(base, fs, dest, d, overwrite) && rel != [] && NamesOk(rel)
    requires ClearWay(fs, d, rel)
    ensures Inside(fs, WriteSymlink(fs, Target(dest, rel), link, overwrite).fs, d, rel, true)
  {
    hide *;
    var target := Target(dest, rel);
    var made := MakeParent(fs, target);
    FootingDest(base, fs, dest, d, overwrite);
    ParentBelow(fs, dest, d, rel);
    var next := WriteSymlink(fs, target, link, overwrite).fs;
    if made.ok {
      MadeDestThere(fs, made.fs, dest, d, d + rel);
      BelowExtends(fs, made.fs, d);
      FootingKept(base, fs, made.fs, dest, d, overwrite);
      ResolveMember(made.fs, dest, d, rel, false);
      if overwrite && Tree(made.fs - {d + rel}) {
        GoneResolves(base, made.fs, dest, d, rel);
      }
      LinkOnly(fs, target, link, overwrite, d + rel);
      InsideBoth(fs, made.fs, next, d, rel, true);
    } else {
      FailedLink(fs, target, link, overwrite);
      InsideDirs(fs, next, d, rel, true);
    }
  }

  lemma {:induction false} DirInside(fs: FS, dest: string, d: Path, rel: Path)
    requires Tree(fs) && Dest(fs, dest, d) && rel != [] && NamesOk(rel) && ClearWay(fs, d, rel)
    ensures DirsBelow(fs, MkdirAll(fs, Target(dest, rel)).fs, d)
  {
    hide *;
    var parts := Components(dest);
    DestParts(fs, dest, d);
    DestIsDir(fs, dest, d);
    TargetSplit(dest, rel);
    CutLast(rel);
    ComponentsSteps(dest);
    CatAssoc(parts, rel[..|rel| - 1], [rel[|rel| - 1]]);
    MkdirAllParts(fs, Target(dest, rel));
    MkdirSkips(fs, parts, rel, 0);
    HereDown(fs, d, rel);
    MkdirBelow(fs, parts, d, rel, 0);
  }

  lemma {:induction false} HereDown(fs: FS, d: Path, rel: Path)
    requires d in fs && fs[d] == Dir
    ensures DirsDown(fs, d, rel, 0)
  {
    assert d + rel[..0] == d;
  }

  /** A member whose path passes no link is written below the destination, whatever comes of it. */
  lemma {:induction false} MemberInside(base: FS, fs: FS, m: Member, dest: string, d: Path, rel: Path,
                                        overwrite: bool, budget: int)
    requires Tree(fs) && Footing(base, fs, dest, d, overwrite) && rel != [] && NamesOk(rel)
    requires m.kind != TypeOther ==> ClearWay(fs, d, rel)
    requires overwrite && m.kind == TypeReg ==> NoLink(fs, d + rel)
    ensures var next := WriteMember(fs, m, Target(dest, rel), overwrite, budget).fs;
            Inside(fs, next, d, rel, m.kind == TypeSymlink) && Footing(base, next, dest, d, overwrite)
  {
    hide Tree, Footing, NamesOk, ClearWay, NoLink, Inside, DirsBelow, MkdirAll, WriteFile, WriteSymlink, Target,
         Extends;
    FootingDest(base, fs, dest, d, overwrite);
    var target := Target(dest, rel);
    var next := WriteMember(fs, m, target, overwrite, budget).fs;
    match m.kind {
      case TypeDir =>
        DirInside(fs, dest, d, rel);
        InsideDirs(fs, next, d, rel, false);
      case TypeSymlink =>
        LinkInside(base, fs, dest, d, rel, m.link, overwrite);
      case TypeReg =>
        FileInside(base, fs, dest, d, rel, m.body, overwrite, budget);
      case TypeOther =>
        DirsBelowRefl(fs, d);
        InsideDirs(fs, next, d, rel, false);
    }
    InsideOnly(fs, next, d, rel, m.kind == TypeSymlink);
    if !overwrite {
      WriteMemberKeeps(fs, m, target, budget);
    }
    FootingKept(base, fs, next, dest, d, overwrite);
  }

  lemma {:induction false} InsideOnly(fs: FS, next: FS, d: Path, rel: Path, link: bool)
    requires Inside(fs, next, d, rel, link)
    ensures OnlyBelow(fs, next, d)
  {
  }

  // ----- every member of an archive

  /** Where a member goes below the destination; nowhere when its name is refused or empty. */
  function Below(m: Member): (rel: Path)
  {
    var safe := SafeName(m.name);
    if safe.Name? then Components(safe.path) else []
  }

  /** `late` would be written through the link `early`. */
  predicate Crosses(early: Member, late: Member, overwrite: bool)
  {
    && early.kind == TypeSymlink && Below(early) != [] && late.kind != TypeOther
    && (Below(early) < Below(late) || (overwrite && late.kind == TypeReg && Below(early) == Below(late)))
  }

  /** No member goes through a link that an earlier one made. */
  predicate Uncrossed(members: seq<Member>, overwrite: bool)
  {
    forall i, j | 0 <= i < j < |members| :: !Crosses(members[i], members[j], overwrite)
  }

  predicate MadeBy(p: Path, d: Path, m: Member)
  {
    m.kind == TypeSymlink && Below(m) != [] && p == d + Below(m)
  }

  /** Every link below `d` was made by one of the first `k` members. */
  ghost predicate OwnLinks(fs: FS, d: Path, members: seq<Member>, k: nat)
    requires k <= |members|
  {
    forall p | p in fs && fs[p].Link? && d < p :: exists i | 0 <= i < k :: MadeBy(p, d, members[i])
  }

  lemma {:induction false} CatCancel(d: Path, a: Path, b: Path)
    requires d + a == d + b
    ensures a == b
  {
    assert (d + a)[|d|..] == a && (d + b)[|d|..] == b;
  }

  lemma {:induction false} WayIsClear(fs: FS, d: Path, members: seq<Member>, k: nat, overwrite: bool)
    requires k < |members| && Uncrossed(members, overwrite) && OwnLinks(fs, d, members, k)
    requires Below(members[k]) != []
    ensures var m := members[k];
            && (m.kind != TypeOther ==> ClearWay(fs, d, Below(m)))
            && (overwrite && m.kind == TypeReg ==> NoLink(fs, d + Below(m)))
  {
    hide Below;
    var m, rel := members[k], Below(members[k]);
    forall c: Path | c != [] && d + c in fs && fs[d + c].Link?
      ensures exists i | 0 <= i < k :: members[i].kind == TypeSymlink && Below(members[i]) == c
    {
      assert d < d + c;
      var i :| 0 <= i < k && MadeBy(d + c, d, members[i]);
      CatCancel(d, c, Below(members[i]));
    }
    forall i | 0 <= i < k ensures !Crosses(members[i], m, overwrite) {
    }
  }

  lemma {:induction false} OwnLinksMore(fs: FS, next: FS, d: Path, members: seq<Member>, k: nat)
    requires k < |members| && OwnLinks(fs, d, members, k) && Below(members[k]) != []
    requires Inside(fs, next, d, Below(members[k]), members[k].kind == TypeSymlink)
    ensures OwnLinks(next, d, members, k + 1)
  {
    hide Below;
    forall p | p in next && next[p].Link? && d < p ensures exists i | 0 <= i < k + 1 :: MadeBy(p, d, members[i]) {
      if p in fs && fs[p].Link? {
        var i :| 0 <= i < k && MadeBy(p, d, members[i]);
      } else {
        assert MadeBy(p, d, members[k]);
      }
    }
  }

  lemma {:induction false} OwnLinksSame(fs: FS, d: Path, members: seq<Member>, k: nat)
    requires k < |members| && OwnLinks(fs, d, members, k)
    ensures OwnLinks(fs, d, members, k + 1)
  {
    hide Below;
    forall p | p in fs && fs[p].Link? && d < p ensures exists i | 0 <= i < k + 1 :: MadeBy(p, d, members[i]) {
      var i :| 0 <= i < k && MadeBy(p, d, members[i]);
    }
  }

  lemma {:induction false} OnlyBelowTrans(a: FS, b: FS, c: FS, d: Path)
    requires OnlyBelow(a, b, d) && OnlyBelow(b, c, d)
    ensures OnlyBelow(a, c, d)
  {
  }

  lemma {:induction false} BelowName(m: Member)
    requires SafeName(m.name).Name?
    ensures Below(m) != [] && NamesOk(Below(m)) && Join(Below(m), SLASH) == SafeName(m.name).path
  {
    hide SafeName, Components, NamesOk, Join;
    SafeNameExact(m.name);
  }

  lemma {:induction false} AdvanceWhere(p: Progress, m: Member, dest: string, overwrite: bool, maxEntries: int)
    requires Tree(p.fs)
    ensures var safe, next := SafeName(m.name), Advance(p, m, dest, overwrite, maxEntries).fs;
            || next == p.fs
            || (safe.Name? && next == WriteMember(p.fs, m, JoinPath(dest, safe.path), overwrite, p.budget).fs)
  {
    hide SafeName, WriteMember, JoinPath, Tree;
  }

  /** One member keeps what confinement rests on. */
  lemma {:induction false} AdvanceInside(base: FS, p: Progress, members: seq<Member>, k: nat, dest: string, d: Path,
                                         overwrite: bool, maxEntries: int)
    requires Tree(p.fs) && Footing(base, p.fs, dest, d, overwrite) && k < |members|
    requires Uncrossed(members, overwrite) && OwnLinks(p.fs, d, members, k)
    ensures var next := Advance(p, members[k], dest, overwrite, maxEntries).fs;
            OnlyBelow(p.fs, next, d) && Footing(base, next, dest, d, overwrite) && OwnLinks(next, d, members, k + 1)
  {
    hide *;
    var m := members[k];
    AdvanceWhere(p, m, dest, overwrite, maxEntries);
    Unchanged(p.fs, d);
    OwnLinksSame(p.fs, d, members, k);
    var next := Advance(p, m, dest, overwrite, maxEntries).fs;
    if next != p.fs {
      var rel := Below(m);
      BelowName(m);
      TargetIs(dest, rel);
      WayIsClear(p.fs, d, members, k, overwrite);
      MemberInside(base, p.fs, m, dest, d, rel, overwrite, p.budget);
      InsideOnly(p.fs, next, d, rel, m.kind == TypeSymlink);
      OwnLinksMore(p.fs, next, d, members, k);
    }
  }

  lemma {:induction false} RestInside(base: FS, p: Progress, members: seq<Member>, k: nat, dest: string, d: Path,
                                      overwrite: bool, maxEntries: int)
    requires Tree(p.fs) && Footing(base, p.fs, dest, d, overwrite) && k <= |members|
    requires Uncrossed(members, overwrite) && OwnLinks(p.fs, d, members, k)
    ensures OnlyBelow(p.fs, ExtractFrom(p, members, k, dest, overwrite, maxEntries).fs, d)
    decreases |members| - k
  {
    hide Tree, Footing, Uncrossed, OwnLinks, Advance, OnlyBelow;
    Unchanged(p.fs, d);
    if p.ok && k < |members| {
      var next := Advance(p, members[k], dest, overwrite, maxEntries);
      AdvanceInside(base, p, members, k, dest, d, overwrite, maxEntries);
      RestInside(base, next, members, k + 1, dest, d, overwrite, maxEntries);
      OnlyBelowTrans(p.fs, next.fs, ExtractFrom(next, members, k + 1, dest, overwrite, maxEntries).fs, d);
    }
  }

  /** What surely stays: everything, or when overwriting all that is not below `d`. */
  ghost function Lasting(fs: FS, d: Path, overwrite: bool): (base: FS)
    requires Tree(fs)
    ensures Tree(base) && Extends(base, fs) && (overwrite ==> forall p | p in base :: !(d < p))
  {
    if !overwrite then fs else map p | p in fs && !(d < p) :: fs[p]
  }

  /** No entry below `d` is a link. */
  ghost predicate LinkFree(fs: FS, d: Path)
  {
    forall p | p in fs && d < p :: !fs[p].Link?
  }

  /**
   An archive none of whose members goes through a link that an earlier one made, unpacked
   into a directory without links, changes nothing outside that directory, whatever its
   members are, however the unpacking ends, and whatever was there.
   */
  lemma {:induction false} ExtractConfined(fs: FS, members: seq<Member>, dest: string, d: Path, overwrite: bool,
                                           limits: Limits)
    requires Tree(fs) && Dest(Lasting(fs, d, overwrite), dest, d) && LinkFree(fs, d) && Uncrossed(members, overwrite)
    ensures OnlyBelow(fs, ExtractFrom(Progress(fs, 0, limits.maxBytes, true), members, 0, dest, overwrite,
                                      limits.maxEntries).fs, d)
  {
    var base := Lasting(fs, d, overwrite);
    assert Footing(base, fs, dest, d, overwrite);
    assert OwnLinks(fs, d, members, 0);
    hide *;
    RestInside(base, Progress(fs, 0, limits.maxBytes, true), members, 0, dest, d, overwrite, limits.maxEntries);
  }

  lemma {:induction false} VacatedLasts(fs: FS, d: Path, overwrite: bool)
    requires Tree(fs) && Vacated(fs, d)
    ensures Lasting(fs, d, overwrite) == fs && LinkFree(fs, d)
  {
  }

  /** In particular into an empty directory. */
  lemma {:induction false} EmptyConfined(fs: FS, members: seq<Member>, dest: string, d: Path, overwrite: bool,
                                         limits: Limits)
    requires Tree(fs) && Dest(fs, dest, d) && Vacated(fs, d) && Uncrossed(members, overwrite)
    ensures OnlyBelow(fs, ExtractFrom(Progress(fs, 0, limits.maxBytes, true), members, 0, dest, overwrite,
                                      limits.maxEntries).fs, d)
  {
    hide *;
    VacatedLasts(fs, d, overwrite);
    ExtractConfined(fs, members, dest, d, overwrite, limits);
  }

  // ----- without overwriting, exactly

  /** Every member, when its turn comes, is written below `d`. */
  ghost predicate EachInside(p: Progress, members: seq<Member>, k: nat, dest: string, d: Path, maxEntries: int)
    requires Tree(p.fs) && k <= |members|
    decreases |members| - k
  {
    !p.ok || k == |members| ||
    var next := Advance(p, members[k], dest, false, maxEntries);
    OnlyBelow(p.fs, next.fs, d) && EachInside(next, members, k + 1, dest, d, maxEntries)
  }

  /** Of two steps that only add entries, neither hides what the other did. */
  lemma {:induction false} BothBelow(a: FS, b: FS, c: FS, d: Path)
    requires Extends(a, b) && Extends(b, c)
    ensures OnlyBelow(a, c, d) <==> OnlyBelow(a, b, d) && OnlyBelow(b, c, d)
  {
    if OnlyBelow(a, c, d) {
      forall p | (p in a || p in b) && !(d < p) ensures p in a && p in b && b[p] == a[p] {
        assert p in c;
      }
      forall p | (p in b || p in c) && !(d < p) ensures p in b && p in c && c[p] == b[p] {
        assert p in c;
      }
    }
  }

  lemma {:induction false} AdvanceKeeps(p: Progress, m: Member, dest: string, maxEntries: int)
    requires Tree(p.fs)
    ensures Extends(p.fs, Advance(p, m, dest, false, maxEntries).fs)
  {
    hide Tree, SafeName, WriteMember, JoinPath, Advance;
    AdvanceWhere(p, m, dest, false, maxEntries);
    if SafeName(m.name).Name? {
      WriteMemberKeeps(p.fs, m, JoinPath(dest, SafeName(m.name).path), p.budget);
    }
  }

  /** Without overwriting, an archive leaves its destination exactly when one of its members does. */
  lemma {:induction false} LeavesByMember(p: Progress, members: seq<Member>, k: nat, dest: string, d: Path,
                                          maxEntries: int)
    requires Tree(p.fs) && k <= |members|
    ensures OnlyBelow(p.fs, ExtractFrom(p, members, k, dest, false, maxEntries).fs, d)
            <==> EachInside(p, members, k, dest, d, maxEntries)
    decreases |members| - k
  {
    hide Tree, Advance, OnlyBelow, Extends;
    Unchanged(p.fs, d);
    if p.ok && k < |members| {
      var next := Advance(p, members[k], dest, false, maxEntries);
      LeavesByMember(next, members, k + 1, dest, d, maxEntries);
      AdvanceKeeps(p, members[k], dest, maxEntries);
      ExtractKeeps(next, members, k + 1, dest, maxEntries);
      BothBelow(p.fs, next.fs, ExtractFrom(next, members, k + 1, dest, false, maxEntries).fs, d);
    }
  }
}
