/**
 Extracting a list of members that names every directory before what is in it:
 the destination gains exactly those entries.
 */
module Rebuild {
  import opened Text
  import opened Paths
  import opened RootFs
  import opened FileOps
  import opened Reaching
  import opened Extract

  /** An entry to be rebuilt, by its path below the destination. */
  datatype Item = Item(rel: Path, node: Node)

  /** The destination string, as written, leads to the directory `d`. */
  ghost predicate RawDest(fs: FS, dest: string, d: Path)
    requires Tree(fs)
  {
    var parts := Components(dest);
    NUL !in dest && Leads(fs, parts) && PlaceOf(fs, parts).At? && PlaceOf(fs, parts).path == d
  }

  /** The components of the destination after lexical cleaning, which drops ".." and what it cancels. */
  function CleanDest(dest: string): (r: seq<string>)
  {
    Lexical(true, Components(dest), [])
  }

  /** It leads there before and after lexical cleaning. */
  ghost predicate Dest(fs: FS, dest: string, d: Path)
    requires Tree(fs)
  {
    var clean := CleanDest(dest);
    RawDest(fs, dest, d) && Leads(fs, clean) && PlaceOf(fs, clean).At? && PlaceOf(fs, clean).path == d
  }

  lemma {:induction false} RawDestStable(fs: FS, large: FS, dest: string, d: Path)
    requires Tree(fs) && Tree(large) && Extends(fs, large) && RawDest(fs, dest, d)
    ensures RawDest(large, dest, d)
  {
    hide Leads, PlaceOf, Tree, Components;
    LeadsStable(fs, large, Components(dest));
  }

  lemma {:induction false} DestStable(fs: FS, large: FS, dest: string, d: Path)
    requires Tree(fs) && Tree(large) && Extends(fs, large) && Dest(fs, dest, d)
    ensures Dest(large, dest, d)
  {
    hide Leads, PlaceOf, Tree, RawDest, CleanDest;
    RawDestStable(fs, large, dest, d);
    LeadsStable(fs, large, CleanDest(dest));
  }

  // ----- below the destination

  /** The prefixes of `rel` up to length `n` are directories below `d`. */
  ghost predicate DirsDown(fs: FS, d: Path, rel: Path, n: nat)
    requires n <= |rel|
  {
    forall k | 0 <= k <= n :: d + rel[..k] in fs && fs[d + rel[..k]] == Dir
  }

  lemma {:induction false} DirsDownAt(fs: FS, d: Path, rel: Path, n: nat)
    requires 0 < n <= |rel| && DirsDown(fs, d, rel, n) && NamesOk(rel)
    ensures DirsDown(fs, d, rel, n - 1) && NameOk(rel[n - 1])
    ensures d + rel[..n - 1] + [rel[n - 1]] == d + rel[..n]
    ensures d + rel[..n] in fs && fs[d + rel[..n]] == Dir
    ensures rel[..n - 1] + [rel[n - 1]] == rel[..n]
  {
  }

  lemma {:induction false} LeadsDown(fs: FS, parts: seq<string>, d: Path, rel: Path, n: nat)
    requires Tree(fs) && Leads(fs, parts) && PlaceOf(fs, parts).At? && PlaceOf(fs, parts).path == d
    requires NamesOk(rel) && n <= |rel| && DirsDown(fs, d, rel, n)
    ensures Leads(fs, parts + rel[..n]) && PlaceOf(fs, parts + rel[..n]).At?
    ensures PlaceOf(fs, parts + rel[..n]).path == d + rel[..n]
  {
    hide *;
    if n == 0 {
      assert parts + rel[..n] == parts && d + rel[..n] == d;
    } else {
      DirsDownAt(fs, d, rel, n);
      LeadsDown(fs, parts, d, rel, n - 1);
      CatAssoc(parts, rel[..n - 1], [rel[n - 1]]);
      LeadsStep(fs, parts + rel[..n - 1], rel[n - 1]);
    }
  }

  lemma {:induction false} LeadsStep(fs: FS, parts: seq<string>, name: string)
    requires Tree(fs) && Leads(fs, parts) && PlaceOf(fs, parts).At? && NameOk(name)
    requires PlaceOf(fs, parts).path + [name] in fs && fs[PlaceOf(fs, parts).path + [name]] == Dir
    ensures Leads(fs, parts + [name]) && PlaceOf(fs, parts + [name]).At?
    ensures PlaceOf(fs, parts + [name]).path == PlaceOf(fs, parts).path + [name]
  {
    hide Reached, Tree;
    var at := PlaceOf(fs, parts);
    LeadsAt(fs, parts, |parts|);
    RootIsSolid(fs);
    ReachedSplit(fs, [], parts, [name], false, 0, true);
    ReachedOne(fs, at.path, name, at.hops);
    var all := parts + [name];
    forall k | 0 <= k <= |all| ensures DirAt(fs, all[..k]) {
      if k <= |parts| {
        assert all[..k] == parts[..k];
      } else {
        assert all[..k] == all;
      }
    }
  }

  /** The target string of a member, and its parent. */
  lemma {:induction false} TargetComponents(dest: string, rel: Path)
    requires NUL !in dest && rel != [] && NamesOk(rel)
    ensures var target := JoinPath(dest, Join(rel, SLASH));
            && NUL !in target && Components(target) == Components(dest) + rel
            && NUL !in DirName(target)
            && |DirName(target)| > 0 && DirName(target)[0] == SLASH
            && Components(DirName(target)) == Lexical(true, Components(dest), []) + rel[..|rel| - 1]
  {
    hide Components, JoinPath, Lexical;
    var target := JoinPath(dest, Join(rel, SLASH));
    NamesAreSteps(rel);
    JoinNoNul(rel);
    ComponentsJoin(rel);
    JoinPathNoNul(dest, Join(rel, SLASH));
    ComponentsJoinPath(dest, Join(rel, SLASH));
    var up, name := rel[..|rel| - 1], rel[|rel| - 1];
    var head := TargetHead(dest, rel);
    assert target[..|head| + 1] == head + [SLASH];
    assert target[|head| + 1..] == name;
    LastSlash(head, name);
    assert NUL !in head + [SLASH];
    ComponentsSlash(head, "");
    ComponentsEmpty();
    assert head + [SLASH] + "" == head + [SLASH] && Components(head) + [] == Components(head);
    assert (head + [SLASH])[0] == SLASH by { assert target[0] == SLASH; }
    ComponentsSlash(head, name);
    ComponentsOne(name);
    assert Components(head) + [name] == Components(dest) + up + [name];
    SnocCancel(Components(head), Components(dest) + up, name);
    PathCleanRooted(head + [SLASH]);
    LexicalAppend(true, Components(dest), up, []);
    assert NamesOk(up);
    LexicalNames(true, up, Lexical(true, Components(dest), []));
  }

  lemma {:induction false} SnocCancel(a: seq<string>, b: seq<string>, c: string)
    requires a + [c] == b + [c]
    ensures a == b
  {
    assert a == (a + [c])[..|a|] && b == (b + [c])[..|b|];
  }

  lemma {:induction false} ComponentsOne(name: string)
    requires NameOk(name)
    ensures Components(name) == [name]
  {
    NamesAreSteps([name]);
    ComponentsJoin([name]);
    assert Join([name], SLASH) == name;
  }

  lemma {:induction false} LastSlash(head: string, name: string)
    requires SLASH !in name
    ensures LastIndexOf(head + [SLASH] + name, SLASH) == |head|
  {
    var s := head + [SLASH] + name;
    assert s[|head|] == SLASH;
    assert forall k | |head| < k < |s| :: s[k] == name[k - |head| - 1];
  }

  /** A target is its parent's string, a slash, and its last name. */
  lemma {:induction false} TargetHead(dest: string, rel: Path) returns (head: string)
    requires rel != [] && NamesOk(rel)
    ensures JoinPath(dest, Join(rel, SLASH)) == head + [SLASH] + rel[|rel| - 1]
    ensures JoinPath(dest, Join(rel, SLASH))[0] == SLASH
    ensures SLASH !in rel[|rel| - 1]
  {
    hide TrimLeft, TrimRight, Join;
    var up, name := rel[..|rel| - 1], rel[|rel| - 1];
    assert NameOk(name);
    JoinSnoc(up, name, SLASH);
    assert up + [name] == rel;
    var d := [SLASH] + TrimRight(TrimLeft(dest));
    var front := if d == [SLASH] then "" else d;
    assert JoinPath(dest, Join(rel, SLASH)) == front + [SLASH] + Join(rel, SLASH);
    if up == [] {
      head := front;
    } else {
      head := front + [SLASH] + Join(up, SLASH);
      CatAssoc(front + [SLASH], Join(up, SLASH) + [SLASH], name);
      CatAssoc(front + [SLASH], Join(up, SLASH), [SLASH]);
    }
  }

  // ----- one member

  /** A place below `d` whose proper prefixes are directories. */
  ghost predicate Housed(fs: FS, d: Path, rel: Path)
  {
    rel != [] && NamesOk(rel) && DirsDown(fs, d, rel, |rel| - 1)
  }

  /** ... and which is free. */
  ghost predicate Rooted(fs: FS, d: Path, rel: Path)
  {
    Housed(fs, d, rel) && d + rel !in fs
  }

  function Target(dest: string, rel: Path): (r: string)
  {
    JoinPath(dest, Join(rel, SLASH))
  }

  lemma {:induction false} MkdirAllParts(fs: FS, p: string)
    requires Tree(fs) && NUL !in p
    ensures MkdirAll(fs, p) == MkdirFrom(fs, Components(p), 0)
  {
    hide MkdirFrom, Components, Tree;
    ComponentsClean(p);
  }

  lemma {:induction false} CutLast(rel: Path)
    requires rel != [] && NamesOk(rel)
    ensures var up, name := rel[..|rel| - 1], rel[|rel| - 1]; up + [name] == rel && NamesOk(up) && NameOk(name)
  {
  }

  /** Where the components of a target lead: its parent is reached. */
  lemma {:induction false} TargetPlace(fs: FS, dest: string, d: Path, rel: Path)
    requires Tree(fs) && RawDest(fs, dest, d) && Housed(fs, d, rel)
    ensures var parts, up, name := Components(dest), rel[..|rel| - 1], rel[|rel| - 1];
            && StepsOk(parts + up) && NameOk(name) && Components(Target(dest, rel)) == parts + up + [name]
            && Leads(fs, parts + up) && PlaceOf(fs, parts + up).At? && PlaceOf(fs, parts + up).path == d + up
            && d + up + [name] == d + rel && d + up in fs && fs[d + up] == Dir && NUL !in Target(dest, rel)
  {
    var parts, up, name := Components(dest), rel[..|rel| - 1], rel[|rel| - 1];
    assert d + rel[..|rel| - 1] in fs && fs[d + rel[..|rel| - 1]] == Dir;
    hide Leads, PlaceOf, Tree, Components, Lexical, DirName, DirsDown, JoinPath, Join;
    CutLast(rel);
    TargetComponents(dest, rel);
    LeadsDown(fs, parts, d, rel, |rel| - 1);
    ComponentsSteps(dest);
    NamesAreSteps(up);
    StepsConcat(parts, up);
    CatAssoc(parts, up, [name]);
    CatAssoc(d, up, [name]);
  }

  lemma {:induction false} DirMember(fs: FS, dest: string, d: Path, rel: Path)
    requires Tree(fs) && RawDest(fs, dest, d) && Rooted(fs, d, rel)
    ensures MkdirAll(fs, Target(dest, rel)) == Effect(fs[d + rel := Dir], true)
  {
    RootedNames(fs, d, rel);
    hide *;
    TargetPlace(fs, dest, d, rel);
    MkdirAllParts(fs, Target(dest, rel));
    MkdirFromLast(fs, Components(dest) + rel[..|rel| - 1], rel[|rel| - 1], 0);
  }

  /** The directory that holds a member, read after lexical cleaning, is there. */
  ghost predicate ParentLeads(fs: FS, dest: string, rel: Path)
    requires Tree(fs) && rel != []
  {
    Leads(fs, CleanDest(dest) + rel[..|rel| - 1])
  }

  lemma {:induction false} DestParent(fs: FS, dest: string, d: Path, rel: Path)
    requires Tree(fs) && Dest(fs, dest, d) && Housed(fs, d, rel)
    ensures ParentLeads(fs, dest, rel)
  {
    hide Leads, PlaceOf, Tree, CleanDest, DirsDown;
    LeadsDown(fs, CleanDest(dest), d, rel, |rel| - 1);
  }

  /** Making the parent of a member is making the cleaned path to it. */
  lemma {:induction false} ParentIs(fs: FS, dest: string, rel: Path)
    requires Tree(fs) && NUL !in dest && rel != [] && NamesOk(rel)
    ensures var parts := CleanDest(dest) + rel[..|rel| - 1];
            StepsOk(parts) && MakeParent(fs, Target(dest, rel)) == MkdirFrom(fs, parts, 0)
  {
    hide Tree, Components, Lexical, DirName, JoinPath, Join, MkdirAll, MkdirFrom;
    var clean, up := CleanDest(dest), rel[..|rel| - 1];
    CutLast(rel);
    TargetComponents(dest, rel);
    ComponentsSteps(dest);
    LexicalRooted(Components(dest), []);
    NamesAreSteps(clean);
    NamesAreSteps(up);
    StepsConcat(clean, up);
    MkdirAllParts(fs, DirName(Target(dest, rel)));
  }

  lemma {:induction false} ParentMember(fs: FS, dest: string, rel: Path)
    requires Tree(fs) && NUL !in dest && rel != [] && NamesOk(rel) && ParentLeads(fs, dest, rel)
    ensures MakeParent(fs, Target(dest, rel)) == Effect(fs, true)
  {
    hide Leads, Tree, CleanDest, MakeParent, MkdirFrom, Target;
    ParentIs(fs, dest, rel);
    MkdirFromLeads(fs, CleanDest(dest) + rel[..|rel| - 1], 0);
  }

  lemma {:induction false} ReachedMissing(fs: FS, dir: Path, name: string, hops: nat, follow: bool)
    requires Tree(fs) && dir in fs && fs[dir] == Dir && hops <= MAX_SYMLINKS && NameOk(name) && dir + [name] !in fs
    ensures Reached(fs, dir, [name], true, hops, follow) == At(dir + [name], hops)
  {
    hide Components, TrimLeft;
    assert [name][1..] == [];
  }

  /** The target resolves to its place, unless that is a link to be followed. */
  lemma {:induction false} ResolveMember(fs: FS, dest: string, d: Path, rel: Path, follow: bool)
    requires Tree(fs) && RawDest(fs, dest, d) && Housed(fs, d, rel)
    requires d + rel in fs && follow ==> !fs[d + rel].Link?
    ensures ResolvePath(fs, Target(dest, rel), follow) == Ok(d + rel)
  {
    hide Leads, RawDest, Reached, Tree, Components, ResolvePath, DirsDown, Target;
    var lead, name := Components(dest) + rel[..|rel| - 1], rel[|rel| - 1];
    TargetPlace(fs, dest, d, rel);
    var at := PlaceOf(fs, lead);
    ResolveAgrees(fs, Target(dest, rel), follow);
    FollowIsMoot(fs, [], lead, 0, true, follow);
    ReachedSplit(fs, [], lead, [name], true, 0, follow);
    if d + rel in fs {
      ReachedThere(fs, at.path, name, at.hops, follow);
    } else {
      ReachedMissing(fs, at.path, name, at.hops, follow);
    }
  }

  lemma {:induction false} ReachedThere(fs: FS, dir: Path, name: string, hops: nat, follow: bool)
    requires Tree(fs) && dir in fs && fs[dir] == Dir && hops <= MAX_SYMLINKS && NameOk(name) && dir + [name] in fs
    requires follow ==> !fs[dir + [name]].Link?
    ensures Reached(fs, dir, [name], true, hops, follow) == At(dir + [name], hops)
  {
    hide Components, TrimLeft;
    assert [name][1..] == [];
  }

  lemma {:induction false} CreateMember(fs: FS, d: Path, rel: Path, node: Node)
    requires Tree(fs) && Rooted(fs, d, rel)
    ensures CreateAt(fs, d + rel, node) == Effect(fs[d + rel := node], true)
    ensures Tree(fs[d + rel := node]) && Extends(fs, fs[d + rel := node])
  {
    var up, name := rel[..|rel| - 1], rel[|rel| - 1];
    assert Parent(d + rel) == d + up;
    assert d + up in fs && fs[d + up] == Dir;
    assert (d + rel)[|d + rel| - 1] == name && NameOk(name);
    hide Tree;
    CreateKeepsTree(fs, d + rel, node);
  }

  lemma {:induction false} LinkMember(fs: FS, dest: string, d: Path, rel: Path, link: string, overwrite: bool)
    requires Tree(fs) && RawDest(fs, dest, d) && Rooted(fs, d, rel) && ParentLeads(fs, dest, rel)
    ensures WriteSymlink(fs, Target(dest, rel), link, overwrite) == Effect(fs[d + rel := Link(link)], true)
  {
    RootedNames(fs, d, rel);
    RawDestNul(fs, dest, d);
    hide RawDest, ParentLeads, Housed, ResolvePath, MakeParent, CreateAt, Target, Tree;
    ParentMember(fs, dest, rel);
    ResolveMember(fs, dest, d, rel, false);
    CreateMember(fs, d, rel, Link(link));
  }

  /** What is left of a byte budget; one that reaches zero stops counting. */
  function Spend(budget: int, n: nat): (r: int)
  {
    if budget > 0 then budget - n else budget
  }

  predicate Affords(budget: int, n: nat)
  {
    if budget > 0 then n <= budget else n <= NO_LIMIT
  }

  lemma {:induction false} FileMember(fs: FS, dest: string, d: Path, rel: Path, body: seq<int>, overwrite: bool,
                                      budget: int)
    requires Tree(fs) && RawDest(fs, dest, d) && Rooted(fs, d, rel) && ParentLeads(fs, dest, rel) &&
             Affords(budget, |body|)
    ensures WriteFile(fs, Target(dest, rel), body, overwrite, budget)
            == Wrote(fs[d + rel := File(body)], Spend(budget, |body|), true)
  {
    RootedNames(fs, d, rel);
    RawDestNul(fs, dest, d);
    hide RawDest, ParentLeads, Rooted, OpenWrite, LstatOk, MakeParent, Fill, Target, Tree;
    ParentMember(fs, dest, rel);
    OpenMember(fs, dest, d, rel);
    CreateMember(fs, d, rel, File([]));
    FillMember(fs, d + rel, body);
  }

  lemma {:induction false} OpenMember(fs: FS, dest: string, d: Path, rel: Path)
    requires Tree(fs) && RawDest(fs, dest, d) && Rooted(fs, d, rel)
    ensures OpenWrite(fs, Target(dest, rel)) == Handle(fs[d + rel := File([])], d + rel, true)
    ensures !LstatOk(fs, Target(dest, rel))
  {
    hide RawDest, Housed, ResolvePath, CreateAt, Target, Tree;
    ResolveMember(fs, dest, d, rel, false);
    ResolveMember(fs, dest, d, rel, true);
    CreateMember(fs, d, rel, File([]));
  }

  lemma {:induction false} FillMember(fs: FS, place: Path, body: seq<int>)
    requires Tree(fs[place := File([])])
    ensures Fill(fs[place := File([])], place, body) == fs[place := File(body)]
  {
    assert fs[place := File([])][place := File(body)] == fs[place := File(body)];
  }

  // ----- member names

  /** The member that carries a node under a name; a directory's name ends in a slash. */
  function MemberFor(name: string, node: Node): (m: Member)
    requires !node.Special?
  {
    match node
    case Dir => Member(name + [SLASH], TypeDir, "", [])
    case Link(target) => Member(name, TypeSymlink, target, [])
    case File(bytes) => Member(name, TypeReg, "", bytes)
  }

  function MemberOf(item: Item): (m: Member)
    requires !item.node.Special?
  {
    MemberFor(Join(item.rel, SLASH), item.node)
  }

  /** Names that unpacking does not rewrite. */
  predicate Plain(rel: Path)
  {
    forall c | c in rel :: BACKSLASH !in c
  }

  lemma {:induction false} UnbackPlain(s: string)
    requires BACKSLASH !in s
    ensures Unback(s) == s
  {
  }

  lemma {:induction false} JoinPlain(rel: Path)
    requires Plain(rel)
    ensures BACKSLASH !in Join(rel, SLASH)
  {
    if |rel| > 1 {
      JoinPlain(rel[1..]);
    }
  }

  lemma {:induction false} JoinStart(rel: Path)
    requires rel != [] && NamesOk(rel)
    ensures |Join(rel, SLASH)| > 0 && Join(rel, SLASH)[0] != SLASH
  {
    assert NameOk(rel[0]) && rel[0][0] in rel[0];
  }

  /** Proper names come through unchanged, with or without a final slash. */
  lemma {:induction false} SafePlain(rel: Path, tail: string)
    requires rel != [] && NamesOk(rel) && Plain(rel) && (tail == "" || tail == [SLASH])
    ensures SafeName(Join(rel, SLASH) + tail) == Name(Join(rel, SLASH))
  {
    hide Components, Join, Lexical;
    var joined := Join(rel, SLASH);
    var name := joined + tail;
    NamesAreSteps(rel);
    JoinNoNul(rel);
    JoinPlain(rel);
    UnbackPlain(name);
    JoinStart(rel);
    ComponentsJoin(rel);
    ComponentsSlash(joined, "");
    ComponentsEmpty();
    assert joined + [SLASH] + "" == joined + [SLASH] && rel + [] == rel;
    assert joined + "" == joined;
    assert Components(name) == rel;
    LexicalNames(false, rel, []);
    assert [] + rel == rel;
    assert NameOk(rel[0]);
    ParentFirst(rel);
  }

  // ----- the whole list

  /** Every entry finds its parent made, its place free and its name plain. */
  ghost predicate Ready(fs: FS, d: Path, items: seq<Item>)
    decreases |items|
  {
    items == [] ||
    if items[0].node.Special? then Ready(fs, d, items[1..])
    else
      && Rooted(fs, d, items[0].rel) && Plain(items[0].rel)
      && Ready(fs[d + items[0].rel := items[0].node], d, items[1..])
  }

  /** The filesystem with the entries added below `d`; special files are passed over. */
  ghost function Graft(fs: FS, d: Path, items: seq<Item>): (r: FS)
    decreases |items|
  {
    if items == [] then fs
    else if items[0].node.Special? then Graft(fs, d, items[1..])
    else Graft(fs[d + items[0].rel := items[0].node], d, items[1..])
  }

  function Members(items: seq<Item>): (r: seq<Member>)
    ensures |r| <= |items|
  {
    if items == [] then []
    else if items[0].node.Special? then Members(items[1..])
    else [MemberOf(items[0])] + Members(items[1..])
  }

  function Bytes(items: seq<Item>): (n: nat)
  {
    if items == [] then 0
    else (if items[0].node.File? then |items[0].node.bytes| else 0) + Bytes(items[1..])
  }

  /** The limits admit the entries: their number, and their bytes together or each. */
  predicate Within(items: seq<Item>, written: nat, budget: int, maxEntries: int)
  {
    && (maxEntries <= 0 || written + |Members(items)| <= maxEntries)
    && (budget <= 0 || Bytes(items) <= budget)
    && forall k | 0 <= k < |items| && items[k].node.File? :: |items[k].node.bytes| <= NO_LIMIT
  }

  lemma {:induction false} ExtractShift(p: Progress, first: Member, rest: seq<Member>, k: nat, dest: string,
                                        overwrite: bool, maxEntries: int)
    requires Tree(p.fs) && k <= |rest|
    ensures ExtractFrom(p, [first] + rest, k + 1, dest, overwrite, maxEntries)
            == ExtractFrom(p, rest, k, dest, overwrite, maxEntries)
    decreases |rest| - k
  {
    hide Advance, Tree;
    if p.ok && k < |rest| {
      assert ([first] + rest)[k + 1] == rest[k];
      ExtractShift(Advance(p, rest[k], dest, overwrite, maxEntries), first, rest, k + 1, dest, overwrite, maxEntries);
    }
  }

  /** One entry is written as it stands. */
  lemma {:induction false} AdvanceItem(p: Progress, item: Item, dest: string, d: Path, overwrite: bool, maxEntries: int)
    requires p.ok && Tree(p.fs) && Dest(p.fs, dest, d) && !item.node.Special?
    requires Rooted(p.fs, d, item.rel) && Plain(item.rel)
    requires maxEntries <= 0 || p.written < maxEntries
    requires item.node.File? ==> Affords(p.budget, |item.node.bytes|)
    ensures Advance(p, MemberOf(item), dest, overwrite, maxEntries)
            == Progress(p.fs[d + item.rel := item.node], p.written + 1,
                        if item.node.File? then Spend(p.budget, |item.node.bytes|) else p.budget, true)
  {
    hide *;
    var m := MemberOf(item);
    RootedNames(p.fs, d, item.rel);
    MemberName(item);
    WriteItem(p.fs, item, dest, d, overwrite, p.budget);
    AdvanceTo(p, m, dest, overwrite, maxEntries, Join(item.rel, SLASH));
    TargetIs(dest, item.rel);
  }

  lemma {:induction false} RootedNames(fs: FS, d: Path, rel: Path)
    requires Rooted(fs, d, rel)
    ensures rel != [] && NamesOk(rel) && d + rel !in fs && Housed(fs, d, rel)
  {
  }

  lemma {:induction false} RawDestNul(fs: FS, dest: string, d: Path)
    requires Tree(fs) && RawDest(fs, dest, d)
    ensures NUL !in dest
  {
  }

  lemma {:induction false} DestIsRaw(fs: FS, dest: string, d: Path)
    requires Tree(fs) && Dest(fs, dest, d)
    ensures RawDest(fs, dest, d)
  {
  }

  lemma {:induction false} TargetIs(dest: string, rel: Path)
    ensures Target(dest, rel) == JoinPath(dest, Join(rel, SLASH))
  {
  }

  lemma {:induction false} AdvanceTo(p: Progress, m: Member, dest: string, overwrite: bool, maxEntries: int,
                                     name: string)
    requires Tree(p.fs) && SafeName(m.name) == Name(name) && m.kind != TypeOther
    requires maxEntries <= 0 || p.written < maxEntries
    ensures var w := WriteMember(p.fs, m, JoinPath(dest, name), overwrite, p.budget);
            w.ok ==> Advance(p, m, dest, overwrite, maxEntries) == Progress(w.fs, p.written + 1, w.budget, true)
  {
    hide SafeName, WriteMember, JoinPath, Tree;
  }

  lemma {:induction false} MemberName(item: Item)
    requires item.rel != [] && NamesOk(item.rel) && Plain(item.rel) && !item.node.Special?
    ensures SafeName(MemberOf(item).name) == Name(Join(item.rel, SLASH)) && MemberOf(item).kind != TypeOther
  {
    hide SafeName, Join, Plain, NamesOk;
    var joined := Join(item.rel, SLASH);
    assert joined + "" == joined;
    SafePlain(item.rel, if item.node == Dir then [SLASH] else "");
  }

  lemma {:induction false} WriteItem(fs: FS, item: Item, dest: string, d: Path, overwrite: bool, budget: int)
    requires Tree(fs) && Dest(fs, dest, d) && !item.node.Special? && Rooted(fs, d, item.rel)
    requires item.node.File? ==> Affords(budget, |item.node.bytes|)
    ensures WriteMember(fs, MemberOf(item), Target(dest, item.rel), overwrite, budget)
            == Wrote(fs[d + item.rel := item.node],
                     if item.node.File? then Spend(budget, |item.node.bytes|) else budget, true)
  {
    RootedNames(fs, d, item.rel);
    hide Dest, Rooted, ParentLeads, MkdirAll, WriteFile, WriteSymlink, Tree, Join, Target, Affords, Spend;
    DestIsRaw(fs, dest, d);
    DestParent(fs, dest, d, item.rel);
    match item.node
    case Dir => DirMember(fs, dest, d, item.rel);
    case Link(target) => LinkMember(fs, dest, d, item.rel, target, overwrite);
    case File(bytes) => FileMember(fs, dest, d, item.rel, bytes, overwrite, budget);
  }

  lemma {:induction false} WithinRest(items: seq<Item>, written: nat, budget: int, maxEntries: int)
    requires items != [] && Within(items, written, budget, maxEntries)
    ensures var item, rest := items[0], items[1..];
            if item.node.Special? then Within(rest, written, budget, maxEntries)
            else
              && (maxEntries <= 0 || written < maxEntries)
              && (item.node.File? ==> Affords(budget, |item.node.bytes|))
              && Within(rest, written + 1, if item.node.File? then Spend(budget, |item.node.bytes|) else budget,
                 maxEntries)
  {
    var rest := items[1..];
    assert forall k | 0 <= k < |rest| :: rest[k] == items[k + 1];
    if items[0].node.File? {
      assert |items[0].node.bytes| <= NO_LIMIT;
    }
  }

  /**
   Extracting entries that come parents first, into a destination where their
   places are free, adds exactly those entries.
   */
  lemma {:induction false} RebuildAll(p: Progress, items: seq<Item>, dest: string, d: Path, overwrite: bool,
                                      maxEntries: int)
    requires p.ok && Tree(p.fs) && Dest(p.fs, dest, d) && Ready(p.fs, d, items)
    requires Within(items, p.written, p.budget, maxEntries)
    ensures var r := ExtractFrom(p, Members(items), 0, dest, overwrite, maxEntries);
            r.ok && r.fs == Graft(p.fs, d, items) && r.written == p.written + |Members(items)|
    decreases |items|
  {
    hide Tree, Dest, Rooted, Plain, Within, Advance, MemberOf;
    if items != [] {
      var item, rest := items[0], items[1..];
      WithinRest(items, p.written, p.budget, maxEntries);
      if item.node.Special? {
        RebuildAll(p, rest, dest, d, overwrite, maxEntries);
      } else {
        AdvanceItem(p, item, dest, d, overwrite, maxEntries);
        var next := Advance(p, MemberOf(item), dest, overwrite, maxEntries);
        CreateMember(p.fs, d, item.rel, item.node);
        DestStable(p.fs, next.fs, dest, d);
        RebuildAll(next, rest, dest, d, overwrite, maxEntries);
        ExtractShift(next, MemberOf(item), Members(rest), 0, dest, overwrite, maxEntries);
        assert ([MemberOf(item)] + Members(rest))[0] == MemberOf(item);
      }
    }
  }
}
