/**
 Archiving a path and extracting the members into an empty directory rebuilds the
 tree: the same directories, file bytes and link targets, special files left out,
 and nothing else.
 */
module RoundTrip {
  import opened Text
  import opened Paths
  import opened RootFs
  import opened FileOps
  import opened Reaching
  import opened Extract
  import opened Rebuild
  import opened Outcomes
  import opened Archive

  // ----- member names

  /** A path whose last component, as written, is a proper plain name. */
  predicate CleanSource(path: string)
  {
    NUL !in path && NameOk(BaseName(path)) && BACKSLASH !in BaseName(path)
  }

  lemma {:induction false} TrimLeftSlash(s: string)
    requires s != "" && s[0] != SLASH
    ensures TrimLeft([SLASH] + s) == s
  {
    assert ([SLASH] + s)[1..] == s;
  }

  lemma {:induction false} TrimRightNone(s: string, name: string)
    requires NameOk(name)
    ensures TrimRight(s + name) == s + name
  {
    assert name[|name| - 1] in name;
  }

  /** A walk's path string spells its base's parent and the member name. */
  lemma {:induction false} CurrentSpells(path: string, rel: Path)
    requires CleanSource(path) && rel != [] && rel[0] == BaseName(path) && NamesOk(rel)
    ensures NUL !in Current(path, rel)
    ensures TrimLeft(Current(path, rel)) == Prefix(path) + Join(rel, SLASH)
    decreases |rel|
  {
    if |rel| == 1 {
      var cleaned := CleanPath(path).path;
      assert cleaned == Prefix(path) + BaseName(path);
      assert cleaned != "." by { DotBase(path); }
    } else {
      var up, name := rel[..|rel| - 1], rel[|rel| - 1];
      CutLast(rel);
      CurrentSpells(path, up);
      hide *;
      CurrentStep(path, up, name);
    }
  }

  lemma {:induction false} DotBase(path: string)
    requires NUL !in path && NameOk(BaseName(path))
    ensures CleanPath(path).path != "." && TrimLeft(path) == CleanPath(path).path
  {
  }

  lemma {:induction false} CurrentStep(path: string, up: Path, name: string)
    requires NamesOk(up) && up != [] && NameOk(name) && NUL !in Current(path, up)
    requires TrimLeft(Current(path, up)) == Prefix(path) + Join(up, SLASH)
    ensures NUL !in Current(path, up + [name])
    ensures TrimLeft(Current(path, up + [name])) == Prefix(path) + Join(up + [name], SLASH)
  {
    hide *;
    var spelled := Prefix(path) + Join(up, SLASH);
    var head := EndsInName(up);
    CatAssoc(Prefix(path), head, up[|up| - 1]);
    CutLast(up);
    TrimRightNone(Prefix(path) + head, up[|up| - 1]);
    CurrentSnoc(path, up, name);
    NameParts(name);
    NameParts(up[|up| - 1]);
    JoinPathNoNul(Current(path, up), name);
    JoinPathIs(Current(path, up), name, spelled);
    JoinSnoc(up, name, SLASH);
    CatAssoc(Prefix(path), Join(up, SLASH) + [SLASH], name);
    CatAssoc(Prefix(path), Join(up, SLASH), [SLASH]);
    TrimLeftStart(Current(path, up));
    TrimLeftSlash(spelled + [SLASH] + name);
  }

  lemma {:induction false} TrimLeftStart(s: string)
    ensures TrimLeft(s) == "" || TrimLeft(s)[0] != SLASH
  {
  }

  lemma {:induction false} NameParts(name: string)
    requires NameOk(name)
    ensures name != "" && NUL !in name
  {
  }

  lemma {:induction false} JoinPathIs(dir: string, name: string, trimmed: string)
    requires TrimRight(TrimLeft(dir)) == trimmed != ""
    ensures JoinPath(dir, name) == [SLASH] + (trimmed + [SLASH] + name)
  {
    hide TrimLeft, TrimRight;
    assert |[SLASH] + trimmed| > 1;
  }

  lemma {:induction false} EndsInName(names: Path) returns (head: string)
    requires names != []
    ensures Join(names, SLASH) == head + names[|names| - 1]
  {
    var up, name := names[..|names| - 1], names[|names| - 1];
    JoinSnoc(up, name, SLASH);
    assert up + [name] == names;
    head := if up == [] then "" else Join(up, SLASH) + [SLASH];
  }

  lemma {:induction false} MemberNameIs(path: string, rel: Path)
    requires CleanSource(path) && rel != [] && rel[0] == BaseName(path) && NamesOk(rel)
    ensures ArchiveName(Current(path, rel), Prefix(path)) == Join(rel, SLASH)
  {
    hide TrimLeft, Current, Join, Prefix, NamesOk;
    CurrentSpells(path, rel);
    var name := Join(rel, SLASH);
    JoinStart(rel);
    ParentOnly(rel);
    assert (Prefix(path) + name)[|Prefix(path)|..] == name;
    if Prefix(path) + name == "." {
      LongerThanDot(Prefix(path), name);
    }
  }

  lemma {:induction false} ParentOnly(rel: Path)
    requires rel != [] && NamesOk(rel)
    ensures Join(rel, SLASH) != "."
  {
    hide Join;
    NamesAreSteps(rel);
    ParentFirst(rel);
  }

  lemma {:induction false} LongerThanDot(prefix: string, name: string)
    requires prefix + name == "." && name != ""
    ensures name == "."
  {
    assert |prefix| + |name| == 1;
  }

  /** Every entry of a tour is below its start and has proper names. */
  ghost predicate Stems(items: seq<Item>, base: string)
  {
    forall k | 0 <= k < |items| :: items[k].rel != [] && items[k].rel[0] == base && NamesOk(items[k].rel)
  }

  lemma {:induction false} TourStems(fs: FS, at: Path, rel: Path, base: string)
    requires Tree(fs) && at in fs && rel != [] && rel[0] == base && NamesOk(rel)
    ensures Stems(Tour(fs, at, rel), base)
    decreases |Below(fs, at)|, 1, 0
  {
    hide Tree;
    TourDef(fs, at, rel);
    if fs[at] == Dir {
      TourAllStems(fs, at, rel, SortedNames(Children(fs, at)), base);
    }
  }

  lemma {:induction false} TourAllStems(fs: FS, at: Path, rel: Path, names: seq<string>, base: string)
    requires Tree(fs) && at in fs && rel != [] && rel[0] == base && NamesOk(rel)
    requires forall n | n in names :: at + [n] in fs
    ensures Stems(TourAll(fs, at, rel, names), base)
    decreases |Below(fs, at)|, 0, |names|
  {
    hide Tree, Tour;
    if names != [] {
      var n := names[0];
      BelowShrinks(fs, at, n);
      ChildNameOk(fs, at, n);
      assert NamesOk(rel + [n]);
      TourStems(fs, at + [n], rel + [n], base);
      TourAllStems(fs, at, rel, names[1..], base);
    }
  }

  lemma {:induction false} ChildNameOk(fs: FS, at: Path, n: string)
    requires Tree(fs) && at + [n] in fs
    ensures NameOk(n)
  {
    var child := at + [n];
    assert child[|child| - 1] == n;
  }

  /** The archive of a clean path names its members by their place below the parent. */
  lemma {:induction false} NamedIsMembers(items: seq<Item>, path: string)
    requires CleanSource(path) && Stems(items, BaseName(path))
    ensures Named(items, path, Prefix(path)) == Members(items)
  {
    hide ArchiveName, Current, CleanSource, NamesOk, MemberFor;
    if items != [] {
      assert items[0].rel != [];
      MemberNameIs(path, items[0].rel);
      NamedIsMembers(items[1..], path);
    }
  }

  // ----- what is rebuilt

  /** `to` and below stands for `at` and below: the source's entry for a rebuilt path. */
  ghost predicate Copied(src: FS, at: Path, to: Path, q: Path)
  {
    to <= q && at + q[|to|..] in src && !src[at + q[|to|..]].Special?
  }

  /** `r` is `dst` with the tree at `at` copied to `to`, special files left out. */
  ghost predicate Holds(r: FS, dst: FS, src: FS, at: Path, to: Path)
  {
    forall q {:trigger q in r} {:trigger q in dst} ::
      if Copied(src, at, to, q) then q in r && r[q] == src[at + q[|to|..]]
      else (q in r <==> q in dst) && (q in dst ==> r[q] == dst[q])
  }

  /** The same for some of a directory's entries. */
  ghost predicate HoldsSome(r: FS, dst: FS, src: FS, at: Path, to: Path, names: seq<string>)
  {
    forall q {:trigger q in r} {:trigger q in dst} ::
      if |q| > |to| && q[|to|] in names && Copied(src, at, to, q) then q in r && r[q] == src[at + q[|to|..]]
      else (q in r <==> q in dst) && (q in dst ==> r[q] == dst[q])
  }

  /** A child's copy is the part of the directory's copy under that name. */
  lemma {:induction false} CopiedChild(src: FS, at: Path, to: Path, n: string, q: Path)
    ensures Copied(src, at + [n], to + [n], q) <==> |q| > |to| && q[|to|] == n && Copied(src, at, to, q)
    ensures Copied(src, at + [n], to + [n], q) ==> (at + [n]) + q[|to| + 1..] == at + q[|to|..]
  {
    if to <= q && |q| > |to| && q[|to|] == n {
      assert q[|to|..] == [n] + q[|to| + 1..];
      assert (at + [n]) + q[|to| + 1..] == at + q[|to|..];
      assert to + [n] <= q;
    }
  }

  /** What is below an entry makes it a directory, and its own entry on the way exists. */
  lemma {:induction false} OnTheWay(src: FS, at: Path, p: Path)
    requires Tree(src) && at in src && p in src && at < p
    ensures src[at] == Dir && at + [p[|at|]] in src
  {
    hide Tree;
    PrefixIsDir(src, p, |at|);
    assert p[..|at|] == at;
    assert p[..|at| + 1] == at + [p[|at|]];
    if |p| > |at| + 1 {
      PrefixIsDir(src, p, |at| + 1);
    } else {
      assert p == p[..|at| + 1];
    }
  }

  lemma {:induction false} CopiedName(src: FS, at: Path, to: Path, q: Path)
    requires Tree(src) && at in src && Copied(src, at, to, q) && q != to
    ensures |q| > |to| && at + [q[|to|]] in src && src[at] == Dir
  {
    hide Tree;
    var rest := q[|to|..];
    assert q == to + rest;
    assert |rest| > 0;
    OnTheWay(src, at, at + rest);
    assert (at + rest)[|at|] == q[|to|];
  }

  lemma {:induction false} ReadyAppend(fs: FS, d: Path, a: seq<Item>, b: seq<Item>)
    ensures Graft(fs, d, a + b) == Graft(Graft(fs, d, a), d, b)
    ensures Ready(fs, d, a) && Ready(Graft(fs, d, a), d, b) ==> Ready(fs, d, a + b)
    decreases |a|
  {
    hide Rooted, Plain;
    if a == [] {
      assert a + b == b;
    } else {
      assert (a + b)[0] == a[0] && (a + b)[1..] == a[1..] + b;
      if a[0].node.Special? {
        ReadyAppend(fs, d, a[1..], b);
      } else {
        ReadyAppend(fs[d + a[0].rel := a[0].node], d, a[1..], b);
      }
    }
  }

  /** Nothing below `at` is named with a backslash. */
  ghost predicate PlainBelow(src: FS, at: Path)
  {
    forall p | p in src && at <= p :: Plain(p[|at|..])
  }

  lemma {:induction false} PlainChild(src: FS, at: Path, n: string)
    requires PlainBelow(src, at) && at + [n] in src
    ensures PlainBelow(src, at + [n]) && BACKSLASH !in n
  {
    var child := at + [n];
    assert child[|at|..] == [n];
    assert n in child[|at|..];
    forall p | p in src && child <= p ensures Plain(p[|child|..]) {
      assert at <= p;
      assert p[|at|..][1..] == p[|child|..];
    }
  }

  /** A tour finds its places free and made in order, and grafts exactly the copy. */
  lemma {:induction false} TourRebuilds(src: FS, at: Path, rel: Path, dst: FS, d: Path)
    requires Tree(src) && at in src && PlainBelow(src, at)
    requires Tree(dst) && Rooted(dst, d, rel) && Plain(rel)
    ensures var items := Tour(src, at, rel);
            Ready(dst, d, items) && Tree(Graft(dst, d, items)) && Holds(Graft(dst, d, items), dst, src, at, d + rel)
    decreases |Below(src, at)|, 1, 0
  {
    hide *;
    TourDef(src, at, rel);
    var first, names := Item(rel, src[at]), SortedNames(Children(src, at));
    FirstRebuilds(src, at, rel, dst, d);
    if src[at] == Dir {
      var next := Graft(dst, d, [first]);
      SortedDistinct(Children(src, at));
      NoneBelow(src, at, dst, d, rel);
      TourAllRebuilds(src, at, rel, names, next, d);
      ReadyAppend(dst, d, [first], TourAll(src, at, rel, names));
      DirRebuilt(src, at, rel, dst, d);
    }
  }

  predicate Distinct(names: seq<string>)
  {
    forall i, j | 0 <= i < j < |names| :: names[i] != names[j]
  }

  lemma {:induction false} SortedDistinct(s: set<string>)
    ensures Distinct(SortedNames(s))
  {
    var names := SortedNames(s);
    forall i, j | 0 <= i < j < |names| ensures names[i] != names[j] {
      BeforeTotal(names[i], names[j]);
    }
  }

  /** The directory `d + rel` is there and its entries of these names are not. */
  ghost predicate Vacant(dst: FS, d: Path, rel: Path, names: seq<string>)
  {
    rel != [] && NamesOk(rel) && DirsDown(dst, d, rel, |rel|) && forall n | n in names :: d + rel + [n] !in dst
  }

  /** The first entry of a tour. */
  lemma {:induction false} FirstRebuilds(src: FS, at: Path, rel: Path, dst: FS, d: Path)
    requires Tree(src) && at in src && Tree(dst) && Rooted(dst, d, rel) && Plain(rel)
    ensures var items := [Item(rel, src[at])];
            && Ready(dst, d, items) && Tree(Graft(dst, d, items))
            && (!src[at].Special? ==> Graft(dst, d, items) == dst[d + rel := src[at]])
            && (src[at] != Dir ==> Holds(Graft(dst, d, items), dst, src, at, d + rel))
  {
    hide Rooted, Plain, Tree;
    var items := [Item(rel, src[at])];
    assert items[1..] == [];
    if !src[at].Special? {
      CreateMember(dst, d, rel, src[at]);
    }
    forall q ensures Copied(src, at, d + rel, q) ==> q == d + rel || src[at] == Dir {
      if Copied(src, at, d + rel, q) && q != d + rel {
        CopiedName(src, at, d + rel, q);
      }
    }
    assert at + (d + rel)[|d + rel|..] == at;
  }

  lemma {:induction false} NoneBelow(src: FS, at: Path, dst: FS, d: Path, rel: Path)
    requires Tree(dst) && Rooted(dst, d, rel)
    ensures Vacant(dst[d + rel := Dir], d, rel, SortedNames(Children(src, at)))
  {
    var next := dst[d + rel := Dir];
    forall k | 0 <= k <= |rel| ensures d + rel[..k] in next && next[d + rel[..k]] == Dir {
      if k == |rel| {
        assert rel[..k] == rel;
      }
    }
    forall n | n in SortedNames(Children(src, at)) ensures d + rel + [n] !in next {
      assert Parent(d + rel + [n]) == d + rel;
    }
  }

  lemma {:induction false} DirRebuilt(src: FS, at: Path, rel: Path, dst: FS, d: Path)
    requires Tree(src) && at in src && src[at] == Dir
    requires forall n | n in SortedNames(Children(src, at)) :: at + [n] in src
    ensures var names := SortedNames(Children(src, at));
            var r := Graft(dst[d + rel := Dir], d, TourAll(src, at, rel, names));
            HoldsSome(r, dst[d + rel := Dir], src, at, d + rel, names) ==> Holds(r, dst, src, at, d + rel)
  {
    hide Tree, Graft, TourAll;
    var to, names, next := d + rel, SortedNames(Children(src, at)), dst[d + rel := Dir];
    var r := Graft(next, d, TourAll(src, at, rel, names));
    if HoldsSome(r, next, src, at, to, names) {
      forall q
        ensures if Copied(src, at, to, q) then q in r && r[q] == src[at + q[|to|..]]
                else (q in r <==> q in dst) && (q in dst ==> r[q] == dst[q])
      {
        assert q in r || q !in r;
        if q == to {
          assert at + q[|to|..] == at;
        } else if Copied(src, at, to, q) {
          CopiedName(src, at, to, q);
        }
      }
    }
  }

  /** The entries of a directory, one after the other. */
  lemma {:induction false} TourAllRebuilds(src: FS, at: Path, rel: Path, names: seq<string>, dst: FS, d: Path)
    requires Tree(src) && at in src && PlainBelow(src, at) && forall n | n in names :: at + [n] in src
    requires Tree(dst) && Vacant(dst, d, rel, names) && Plain(rel) && Distinct(names)
    ensures var items := TourAll(src, at, rel, names);
            && Ready(dst, d, items) && Tree(Graft(dst, d, items))
            && HoldsSome(Graft(dst, d, items), dst, src, at, d + rel, names)
    decreases |Below(src, at)|, 0, |names|
  {
    if names == [] {
      hide Tree, Copied, Vacant;
    } else {
      hide *;
      var n, rest := names[0], names[1..];
      BelowShrinks(src, at, n);
      NextVacant(src, at, rel, names, dst, d);
      PlainChild(src, at, n);
      TourRebuilds(src, at + [n], rel + [n], dst, d);
      var one := Tour(src, at + [n], rel + [n]);
      var next := Graft(dst, d, one);
      RestVacant(src, at, rel, names, dst, next, d);
      TourAllRebuilds(src, at, rel, rest, next, d);
      var more := TourAll(src, at, rel, rest);
      ReadyAppend(dst, d, one, more);
      TourAllDef(src, at, rel, names);
      SomeRebuilt(src, at, rel, names, dst, next, Graft(next, d, more), d);
    }
  }

  lemma {:induction false} TourAllDef(fs: FS, at: Path, rel: Path, names: seq<string>)
    requires at in fs && names != [] && forall n | n in names :: at + [n] in fs
    ensures TourAll(fs, at, rel, names) == Tour(fs, at + [names[0]], rel + [names[0]]) + TourAll(fs, at, rel,
            names[1..])
  {
  }

  lemma {:induction false} NextVacant(src: FS, at: Path, rel: Path, names: seq<string>, dst: FS, d: Path)
    requires names != [] && Tree(src) && forall n | n in names :: at + [n] in src
    requires PlainBelow(src, at) && Vacant(dst, d, rel, names) && Plain(rel)
    ensures Rooted(dst, d, rel + [names[0]]) && Plain(rel + [names[0]]) && names[0] in names
    ensures d + (rel + [names[0]]) == d + rel + [names[0]]
  {
    var n := names[0];
    PlainChild(src, at, n);
    ChildNameOk(src, at, n);
    assert forall k | 0 <= k <= |rel| :: (rel + [n])[..k] == rel[..k];
    assert d + (rel + [n]) == d + rel + [n];
  }

  lemma {:induction false} RestVacant(src: FS, at: Path, rel: Path, names: seq<string>, dst: FS, next: FS, d: Path)
    requires names != [] && forall n | n in names :: at + [n] in src
    requires Vacant(dst, d, rel, names) && Distinct(names)
    requires Holds(next, dst, src, at + [names[0]], d + (rel + [names[0]]))
    ensures Vacant(next, d, rel, names[1..]) && Distinct(names[1..])
    ensures forall n | n in names[1..] :: at + [n] in src
  {
    hide NamesOk;
    var to, n, rest := d + rel, names[0], names[1..];
    assert d + (rel + [n]) == to + [n];
    assert forall n | n in rest :: n in names;
    forall k | 0 <= k <= |rel| ensures d + rel[..k] in next && next[d + rel[..k]] == Dir {
      assert !(to + [n] <= d + rel[..k]);
      assert d + rel[..k] in dst;
    }
    forall m | m in rest ensures to + [m] !in next {
      assert m != n;
      assert (to + [m])[|to|] == m;
      CopiedChild(src, at, to, n, to + [m]);
      assert to + [m] !in dst;
    }
  }

  lemma {:induction false} SomeRebuilt(src: FS, at: Path, rel: Path, names: seq<string>, dst: FS, next: FS, r: FS,
                                       d: Path)
    requires names != [] && Distinct(names)
    requires Holds(next, dst, src, at + [names[0]], d + (rel + [names[0]]))
    requires HoldsSome(r, next, src, at, d + rel, names[1..])
    ensures HoldsSome(r, dst, src, at, d + rel, names)
  {
    var to, n, rest := d + rel, names[0], names[1..];
    assert d + (rel + [n]) == to + [n];
    hide Copied;
    forall q
      ensures if |q| > |to| && q[|to|] in names && Copied(src, at, to, q) then q in r && r[q] == src[at + q[|to|..]]
              else (q in r <==> q in dst) && (q in dst ==> r[q] == dst[q])
    {
      CopiedChild(src, at, to, n, q);
      assert q in r || q !in r;
      assert q in next || q !in next;
      if |q| > |to| {
        assert q[|to|] in names <==> q[|to|] == n || q[|to|] in rest;
        assert n !in rest;
      }
    }
  }

  // ----- parents first

  ghost predicate Earlier(items: seq<Item>, k: nat)
    requires k < |items| && items[k].rel != []
  {
    exists j | 0 <= j < k :: items[j] == Item(Parent(items[k].rel), Dir)
  }

  /** Every entry lies directly in `dir` or in a directory that came before it. */
  ghost predicate ParentsFirst(items: seq<Item>, dir: Path)
  {
    forall k | 0 <= k < |items| :: items[k].rel != [] && (Parent(items[k].rel) == dir || Earlier(items, k))
  }

  lemma {:induction false} EarlierAfter(a: seq<Item>, b: seq<Item>, i: nat)
    requires i < |b| && b[i].rel != [] && Earlier(b, i)
    ensures (a + b)[|a| + i] == b[i] && Earlier(a + b, |a| + i)
  {
    var j :| 0 <= j < i && b[j] == Item(Parent(b[i].rel), Dir);
    assert (a + b)[|a| + j] == b[j];
  }

  lemma {:induction false} EarlierWithin(a: seq<Item>, b: seq<Item>, i: nat)
    requires i < |a| && a[i].rel != [] && Earlier(a, i)
    ensures (a + b)[i] == a[i] && Earlier(a + b, i)
  {
    var j :| 0 <= j < i && a[j] == Item(Parent(a[i].rel), Dir);
    assert (a + b)[j] == a[j];
  }

  lemma {:induction false} ParentsFirstAppend(a: seq<Item>, b: seq<Item>, dir: Path)
    requires ParentsFirst(a, dir) && ParentsFirst(b, dir)
    ensures ParentsFirst(a + b, dir)
  {
    hide Earlier, Parent;
    var items := a + b;
    forall k | 0 <= k < |items| ensures items[k].rel != [] && (Parent(items[k].rel) == dir || Earlier(items, k)) {
      if k < |a| {
        assert items[k] == a[k];
        if Earlier(a, k) {
          EarlierWithin(a, b, k);
        }
      } else {
        assert items[k] == b[k - |a|];
        if Earlier(b, k - |a|) {
          EarlierAfter(a, b, k - |a|);
        }
      }
    }
  }

  lemma {:induction false} EarlierTop(rel: Path, b: seq<Item>, i: nat)
    requires i < |b| && b[i].rel != [] && Parent(b[i].rel) == rel
    ensures ([Item(rel, Dir)] + b)[i + 1] == b[i] && Earlier([Item(rel, Dir)] + b, i + 1)
  {
    assert ([Item(rel, Dir)] + b)[0] == Item(rel, Dir);
  }

  lemma {:induction false} ParentsFirstUnder(rel: Path, b: seq<Item>)
    requires rel != [] && ParentsFirst(b, rel)
    ensures ParentsFirst([Item(rel, Dir)] + b, Parent(rel))
  {
    hide Earlier, Parent;
    var top := [Item(rel, Dir)];
    var items := top + b;
    forall k | 0 <= k < |items| ensures items[k].rel != [] &&
      (Parent(items[k].rel) == Parent(rel) || Earlier(items, k)) {
      if k > 0 {
        var i := k - 1;
        assert items[k] == b[i];
        if Parent(b[i].rel) == rel {
          EarlierTop(rel, b, i);
        } else {
          EarlierAfter(top, b, i);
        }
      }
    }
  }

  /** In the archive, each directory appears before its children. */
  lemma {:induction false} TourParentsFirst(fs: FS, at: Path, rel: Path)
    requires at in fs && rel != []
    ensures ParentsFirst(Tour(fs, at, rel), Parent(rel))
    decreases |Below(fs, at)|, 1, 0
  {
    hide Tour, TourAll, SortedNames, Children, Below;
    TourDef(fs, at, rel);
    if fs[at] == Dir {
      var names := SortedNames(Children(fs, at));
      TourAllParentsFirst(fs, at, rel, names);
      ParentsFirstUnder(rel, TourAll(fs, at, rel, names));
    }
  }

  lemma {:induction false} TourAllParentsFirst(fs: FS, at: Path, rel: Path, names: seq<string>)
    requires at in fs && rel != [] && forall n | n in names :: at + [n] in fs
    ensures ParentsFirst(TourAll(fs, at, rel, names), rel)
    decreases |Below(fs, at)|, 0, |names|
  {
    hide ParentsFirst, Tour;
    if names == [] {
      NoneFirst(rel);
    } else {
      var n := names[0];
      BelowShrinks(fs, at, n);
      TourParentsFirst(fs, at + [n], rel + [n]);
      assert Parent(rel + [n]) == rel;
      TourAllParentsFirst(fs, at, rel, names[1..]);
      ParentsFirstAppend(Tour(fs, at + [n], rel + [n]), TourAll(fs, at, rel, names[1..]), rel);
    }
  }

  lemma {:induction false} NoneFirst(dir: Path)
    ensures ParentsFirst([], dir)
  {
  }

  // ----- the round trip

  /** Where an archive of `path` starts, and everything it visits. */
  ghost function Visits(src: FS, path: string): (r: seq<Item>)
    requires Tree(src) && LstatOk(src, path)
  {
    Tour(src, ResolvePath(src, path, false).path, [BaseName(path)])
  }

  /** What may be archived so that unpacking does not rename it. */
  ghost predicate Archivable(src: FS, path: string)
    requires Tree(src)
  {
    CleanSource(path) && LstatOk(src, path) && PlainBelow(src, ResolvePath(src, path, false).path)
  }

  ghost predicate Vacated(fs: FS, d: Path)
  {
    d in fs && fs[d] == Dir && forall p | p in fs && d <= p :: p == d
  }

  lemma {:induction false} ArchivableStart(src: FS, path: string)
    requires Tree(src) && Archivable(src, path)
    ensures var at, base := ResolvePath(src, path, false).path, BaseName(path);
            && LstatOk(src, path) && ResolvePath(src, path, false).Ok? && at in src
            && Visits(src, path) == Tour(src, at, [base])
            && PlainBelow(src, at) && CleanSource(path) && NameOk(base) && Plain([base]) && NamesOk([base])
  {
    hide Tree, ResolvePath, Tour;
  }

  lemma {:induction false} RootedTop(dst: FS, d: Path, base: string)
    requires Vacated(dst, d) && NameOk(base)
    ensures Rooted(dst, d, [base])
  {
    assert d + [base][..0] == d;
    assert d <= d + [base];
  }

  /**
   The archive of a path, extracted into an empty directory that the destination
   string leads to, adds under `d/<basename>` a copy of the tree and nothing else, unless
   it exceeds a limit, which is when the unpacking reports failure.
   */
  lemma {:induction false} ArchiveThenExtract(src: FS, path: string, dst: FS, dest: string, d: Path, overwrite: bool,
                                              limits: Limits)
    requires Tree(src) && Archivable(src, path)
    requires Tree(dst) && Dest(dst, dest, d) && Vacated(dst, d)
    ensures var members := Named(Visits(src, path), path, Prefix(path));
            var r := ExtractFrom(Progress(dst, 0, limits.maxBytes, true), members, 0, dest, overwrite,
              limits.maxEntries);
            && (r.ok <==> Admitted(Visits(src, path), 0, limits.maxBytes, limits.maxEntries))
            && (r.ok ==>
                  && r.written == |members|
                  && Holds(r.fs, dst, src, ResolvePath(src, path, false).path, d + [BaseName(path)]))
  {
    hide *;
    ArchivableStart(src, path);
    var at, base := ResolvePath(src, path, false).path, BaseName(path);
    var items := Tour(src, at, [base]);
    TourStems(src, at, [base], base);
    NamedIsMembers(items, path);
    RootedTop(dst, d, base);
    TourRebuilds(src, at, [base], dst, d);
    LimitsExactly(Progress(dst, 0, limits.maxBytes, true), items, dest, d, overwrite, limits.maxEntries);
  }

  /** After `MkdirAll`, the destination as written leads to a directory. */
  lemma {:induction false} MadeRaw(dst: FS, dest: string)
    requires Tree(dst) && MkdirAll(dst, dest).ok
    ensures var made := MkdirAll(dst, dest).fs;
            PlaceOf(made, Components(dest)).At? && RawDest(made, dest, PlaceOf(made, Components(dest)).path)
  {
    hide Tree, Components, Leads, PlaceOf, MkdirFrom;
    var parts := Components(dest);
    MkdirAllParts(dst, dest);
    ComponentsSteps(dest);
    StartLeads(dst, parts);
    MkdirFromMakes(dst, parts, 0);
    LeadsAt(MkdirAll(dst, dest).fs, parts, 0);
  }

  /** The destination holds no "..", or dropping it leads to the same place. */
  ghost predicate Straight(fs: FS, dest: string)
    requires Tree(fs)
  {
    var clean := CleanDest(dest);
    || ".." !in Components(dest)
    || (Leads(fs, clean) && PlaceOf(fs, clean).At? && PlaceOf(fs, Components(dest)).At?
        && PlaceOf(fs, clean).path == PlaceOf(fs, Components(dest)).path)
  }

  lemma {:induction false} MadeDest(dst: FS, dest: string)
    requires Tree(dst) && MkdirAll(dst, dest).ok && Straight(MkdirAll(dst, dest).fs, dest)
    ensures var made := MkdirAll(dst, dest).fs;
            PlaceOf(made, Components(dest)).At? && Dest(made, dest, PlaceOf(made, Components(dest)).path)
  {
    hide Tree, Components, Leads, PlaceOf, MkdirAll, NameOk;
    MadeRaw(dst, dest);
    if ".." !in Components(dest) {
      NoDots(dest);
    }
  }

  lemma {:induction false} NoDots(dest: string)
    requires NUL !in dest && ".." !in Components(dest)
    ensures CleanDest(dest) == Components(dest)
  {
    hide Components, NameOk;
    var parts := Components(dest);
    ComponentsSteps(dest);
    assert NamesOk(parts);
    LexicalNames(true, parts, []);
    assert [] + parts == parts;
  }

  /** `Extract`: the destination is made, then filled. */
  ghost function Unpacked(dst: FS, members: seq<Member>, dest: string, overwrite: bool, limits: Limits): (r: Progress)
    requires Tree(dst)
  {
    var made := MkdirAll(dst, dest);
    if !made.ok then Progress(made.fs, 0, limits.maxBytes, false)
    else ExtractFrom(Progress(made.fs, 0, limits.maxBytes, true), members, 0, dest, overwrite, limits.maxEntries)
  }

  /**
   The whole round trip: if the destination can be made, is straight and comes out
   empty, unpacking the archive rebuilds the tree there, exactly when it is within the limits.
   */
  lemma {:induction false} ArchiveRoundTrip(src: FS, path: string, dst: FS, dest: string, overwrite: bool,
                                            limits: Limits)
    requires Tree(src) && Archivable(src, path)
    requires Tree(dst) && MkdirAll(dst, dest).ok && Straight(MkdirAll(dst, dest).fs, dest)
    requires var made := MkdirAll(dst, dest).fs;
             PlaceOf(made, Components(dest)).At? ==> Vacated(made, PlaceOf(made, Components(dest)).path)
    ensures var made := MkdirAll(dst, dest).fs;
            var r := Unpacked(dst, Named(Visits(src, path), path, Prefix(path)), dest, overwrite, limits);
            && PlaceOf(made, Components(dest)).At?
            && (r.ok <==> Admitted(Visits(src, path), 0, limits.maxBytes, limits.maxEntries))
            && (r.ok ==> Holds(r.fs, made, src, ResolvePath(src, path, false).path,
                               PlaceOf(made, Components(dest)).path + [BaseName(path)]))
  {
    hide Tree, Archivable, Dest, Straight, Vacated, Admitted, Holds, PlaceOf, Components, Visits, Named, ExtractFrom,
         MkdirAll, ResolvePath;
    MadeDest(dst, dest);
    var made := MkdirAll(dst, dest).fs;
    ArchiveThenExtract(src, path, made, dest, PlaceOf(made, Components(dest)).path, overwrite, limits);
  }
}
