/**
 Archiving: a depth-first walk in name order that flattens a tree into members
 named relative to the parent of the path that was asked for.
 */
module Archive {
  import opened Text
  import opened Paths
  import opened RootFs
  import opened FileOps
  import opened Reaching
  import opened Extract
  import opened Rebuild

  // ----- name order

  predicate Before(a: string, b: string)
  {
    b != "" && (a == "" || a[0] < b[0] || (a[0] == b[0] && Before(a[1..], b[1..])))
  }

  lemma {:induction false} BeforeTotal(a: string, b: string)
    ensures a != b ==> Before(a, b) || Before(b, a)
    ensures !(Before(a, b) && Before(b, a))
  {
    if a != "" && b != "" && a[0] == b[0] {
      assert a == [a[0]] + a[1..] && b == [b[0]] + b[1..];
      BeforeTotal(a[1..], b[1..]);
    }
  }

  lemma {:induction false} BeforeTransitive(a: string, b: string, c: string)
    requires Before(a, b) && Before(b, c)
    ensures Before(a, c)
  {
    if a != "" && a[0] == b[0] && b[0] == c[0] {
      BeforeTransitive(a[1..], b[1..], c[1..]);
    }
  }

  /** The order of Go's strings: a proper prefix first, or else the smaller character at the first difference. */
  lemma {:induction false} BeforeExactly(a: string, b: string)
    ensures Before(a, b) <==> a < b || exists k | 0 <= k < |a| && k < |b| ::
                                         a[..k] == b[..k] && a[k] as int < b[k] as int
  {
    if a != "" && b != "" && a[0] == b[0] {
      var c, d := a[1..], b[1..];
      BeforeExactly(c, d);
      assert a == [a[0]] + c && b == [b[0]] + d;
      assert a < b <==> c < d;
      if k :| 0 <= k < |c| && k < |d| && c[..k] == d[..k] && c[k] as int < d[k] as int {
        assert a[..k + 1] == [a[0]] + c[..k] && b[..k + 1] == [b[0]] + d[..k] && a[k + 1] == c[k] && b[k + 1] == d[k];
      }
      if k :| 0 <= k < |a| && k < |b| && a[..k] == b[..k] && a[k] as int < b[k] as int {
        assert k > 0;
        assert c[..k - 1] == a[..k][1..] && d[..k - 1] == b[..k][1..] && c[k - 1] == a[k] && d[k - 1] == b[k];
      }
    } else if a != "" && b != "" && a[0] as int < b[0] as int {
      assert a[..0] == b[..0];
    } else if a != "" && b != "" {
      assert forall k | 0 < k <= |a| :: a[..k][0] == a[0];
      assert forall k | 0 < k <= |b| :: b[..k][0] == b[0];
    }
  }

  predicate IsLeast(m: string, s: set<string>)
  {
    m in s && forall x | x in s && x != m :: Before(m, x)
  }

  lemma {:induction false} LeastExists(s: set<string>) returns (m: string)
    requires s != {}
    ensures IsLeast(m, s)
    decreases |s|
  {
    m :| m in s;
    var rest := s - {m};
    if rest != {} {
      var other := LeastExists(rest);
      BeforeTotal(m, other);
      if Before(other, m) {
        m := other;
      } else {
        forall x | x in s && x != m ensures Before(m, x) {
          if x != other {
            BeforeTransitive(m, other, x);
          }
        }
      }
    }
  }

  lemma {:induction false} LeastUnique(s: set<string>)
    requires s != {}
    ensures exists m :: IsLeast(m, s)
    ensures forall a, b | IsLeast(a, s) && IsLeast(b, s) :: a == b
  {
    var m := LeastExists(s);
    forall a, b | IsLeast(a, s) && IsLeast(b, s) ensures a == b {
      BeforeTotal(a, b);
    }
  }

  /** The names of a set in increasing order. */
  function SortedNames(s: set<string>): (r: seq<string>)
    ensures forall x :: x in r <==> x in s
    ensures forall i, j | 0 <= i < j < |r| :: Before(r[i], r[j])
    decreases |s|
  {
    if s == {} then []
    else
      LeastUnique(s);
      var m :| IsLeast(m, s);
      [m] + SortedNames(s - {m})
  }

  // ----- the walk, on places

  function Children(fs: FS, dir: Path): (r: set<string>)
    ensures forall n :: n in r <==> dir + [n] in fs
  {
    var r := set p | p in fs && |p| == |dir| + 1 && p[..|dir|] == dir :: p[|dir|];
    assert forall n :: n in r <==> dir + [n] in fs by {
      forall n ensures n in r <==> dir + [n] in fs {
        ChildName(fs, dir, n, r);
      }
    }
    r
  }

  lemma {:induction false} ChildName(fs: FS, dir: Path, n: string, r: set<string>)
    requires r == set p | p in fs && |p| == |dir| + 1 && p[..|dir|] == dir :: p[|dir|]
    ensures n in r <==> dir + [n] in fs
  {
    if n in r {
      var p :| p in fs && |p| == |dir| + 1 && p[..|dir|] == dir && p[|dir|] == n;
      assert p == dir + [n];
    }
    if dir + [n] in fs {
      var p := dir + [n];
      assert p[..|dir|] == dir && p[|dir|] == n;
    }
  }

  function Below(fs: FS, at: Path): (r: set<Path>)
  {
    set p | p in fs && at <= p
  }

  lemma {:induction false} BelowShrinks(fs: FS, at: Path, n: string)
    requires at in fs
    ensures |Below(fs, at + [n])| < |Below(fs, at)|
  {
    var small, big := Below(fs, at + [n]), Below(fs, at);
    assert small <= big;
    assert at in big && at !in small;
    assert big == small + (big - small);
    assert at in big - small;
  }

  /** Everything from a place on, depth first, each directory's entries in name order. */
  function Tour(fs: FS, at: Path, rel: Path): (r: seq<Item>)
    requires at in fs
    decreases |Below(fs, at)|, 1, 0
  {
    [Item(rel, fs[at])] + if fs[at] == Dir then TourAll(fs, at, rel, SortedNames(Children(fs, at))) else []
  }

  function TourAll(fs: FS, at: Path, rel: Path, names: seq<string>): (r: seq<Item>)
    requires at in fs && forall n | n in names :: at + [n] in fs
    decreases |Below(fs, at)|, 0, |names|
  {
    if names == [] then []
    else
      BelowShrinks(fs, at, names[0]);
      Tour(fs, at + [names[0]], rel + [names[0]]) + TourAll(fs, at, rel, names[1..])
  }

  // ----- the walk, on path strings

  /** What is cut off the front of a cleaned path: everything up to its last slash. */
  function Prefix(path: string): (r: string)
  {
    var base := CleanPath(path);
    if base.Invalid? then "" else base.path[..LastIndexOf(base.path, SLASH) + 1]
  }

  function BaseName(path: string): (r: string)
  {
    var base := CleanPath(path);
    if base.Invalid? then "" else base.path[LastIndexOf(base.path, SLASH) + 1..]
  }

  function ArchiveName(current: string, prefix: string): (r: string)
  {
    var cleaned := CleanPath(current);
    if cleaned.Invalid? then current
    else if cleaned.path == "." then "root"
    else if prefix <= cleaned.path then cleaned.path[|prefix|..]
    else cleaned.path
  }

  /** A member's name: the path below the prefix, the whole path where the prefix does not fit, and "root" for `/`. */
  lemma {:induction false} NameInArchive(slashes: string, path: string, prefix: string)
    requires NUL !in path && (forall c | c in slashes :: c == '/') && (path == "" || path[0] != '/')
    ensures forall rest | path == prefix + rest && path != "" && path != "." ::
              ArchiveName(slashes + path, prefix) == rest
    ensures path != "" && path != "." && !(prefix <= path) ==> ArchiveName(slashes + path, prefix) == path
    ensures path == "" || path == "." ==> ArchiveName(slashes + path, prefix) == "root"
  {
    LeadingSlashes(slashes, path);
    assert NUL !in slashes + path;
  }

  lemma {:induction false} LeadingSlashes(slashes: string, path: string)
    requires (forall c | c in slashes :: c == '/') && (path == "" || path[0] != '/')
    ensures TrimLeft(slashes + path) == path
  {
    if slashes == "" {
      assert slashes + path == path;
    } else {
      assert slashes[0] in slashes && forall c | c in slashes[1..] :: c in slashes;
      assert (slashes + path)[1..] == slashes[1..] + path;
      LeadingSlashes(slashes[1..], path);
    }
  }

  /** The path string that the walk uses for an entry below `path`. */
  function Current(path: string, rel: Path): (r: string)
  {
    if |rel| <= 1 then path else JoinPath(Current(path, rel[..|rel| - 1]), rel[|rel| - 1])
  }

  /** The members of a tour; special files are skipped. */
  function Named(items: seq<Item>, path: string, prefix: string): (r: seq<Member>)
  {
    if items == [] then []
    else
      (if items[0].node.Special? then []
       else [MemberFor(ArchiveName(Current(path, items[0].rel), prefix), items[0].node)])
      + Named(items[1..], path, prefix)
  }

  /** What following a path opens is what `Lstat` saw, unless that is a link. */
  lemma {:induction false} OpensWhatItSees(fs: FS, current: string)
    requires Tree(fs) && LstatOk(fs, current) && !fs[ResolvePath(fs, current, false).path].Link?
    ensures NUL !in current && ResolvePath(fs, current, true) == ResolvePath(fs, current, false)
    ensures PlaceOf(fs, Components(current)).At?
    ensures PlaceOf(fs, Components(current)).path == ResolvePath(fs, current, false).path
  {
    hide Reached, Tree, Components, ResolvePath;
    ResolveComponents(fs, current, false);
    RootIsSolid(fs);
    ResolveAgrees(fs, current, false);
    ResolveAgrees(fs, current, true);
    FinalComponent(fs, [], Components(current), 0, true);
  }

  /** The walk's string for a child resolves to the child. */
  lemma {:induction false} ChildPlace(fs: FS, current: string, n: string)
    requires Tree(fs) && LstatOk(fs, current) && fs[ResolvePath(fs, current, false).path] == Dir
    requires ResolvePath(fs, current, false).path + [n] in fs
    ensures ResolvePath(fs, JoinPath(current, n), false) == Ok(ResolvePath(fs, current, false).path + [n])
  {
    var at := ResolvePath(fs, current, false).path;
    assert NameOk(n) by {
      var child := at + [n];
      assert child in fs && child[|child| - 1] == n;
    }
    hide Reached, Tree, Components, ResolvePath, JoinPath, LstatOk;
    OpensWhatItSees(fs, current);
    var parts := Components(current);
    var place := PlaceOf(fs, parts);
    JoinPathNoNul(current, n);
    ComponentsJoinPath(current, n);
    ComponentsOne(n);
    RootIsSolid(fs);
    ResolveAgrees(fs, JoinPath(current, n), false);
    FollowIsMoot(fs, [], parts, 0, true, false);
    ReachedSplit(fs, [], parts, [n], true, 0, false);
    ReachedOne(fs, at, n, place.hops);
  }

  /** `Root.Open` of a regular file, read to its end. */
  function ReadFile(fs: FS, current: string): (r: seq<int>)
    requires Tree(fs)
  {
    var r := ResolvePath(fs, current, true);
    if r.Ok? && r.path in fs && fs[r.path].File? then fs[r.path].bytes else []
  }

  /** `Root.List` without a limit. */
  function List(fs: FS, current: string): (r: seq<string>)
    requires Tree(fs)
  {
    var r := ResolvePath(fs, current, true);
    if r.Ok? then SortedNames(Children(fs, r.path)) else []
  }

  lemma {:induction false} NamedAppend(a: seq<Item>, b: seq<Item>, path: string, prefix: string)
    ensures Named(a + b, path, prefix) == Named(a, path, prefix) + Named(b, path, prefix)
  {
    hide MemberFor, ArchiveName, Current;
    if a == [] {
      assert a + b == b;
    } else {
      assert (a + b)[1..] == a[1..] + b;
      NamedAppend(a[1..], b, path, prefix);
    }
  }

  lemma {:induction false} NamedOne(item: Item, path: string, prefix: string)
    ensures Named([item], path, prefix)
            == if item.node.Special? then [] else [MemberFor(ArchiveName(Current(path, item.rel), prefix), item.node)]
  {
    assert [item][1..] == [];
  }

  lemma {:induction false} CurrentSnoc(path: string, rel: Path, n: string)
    requires rel != []
    ensures Current(path, rel + [n]) == JoinPath(Current(path, rel), n)
  {
    assert (rel + [n])[..|rel|] == rel;
  }

  lemma {:induction false} TourAllCons(fs: FS, at: Path, rel: Path, names: seq<string>, i: nat)
    requires at in fs && i < |names| && forall n | n in names :: at + [n] in fs
    ensures TourAll(fs, at, rel, names[i..])
            == Tour(fs, at + [names[i]], rel + [names[i]]) + TourAll(fs, at, rel, names[i + 1..])
    ensures |Below(fs, at + [names[i]])| < |Below(fs, at)|
  {
    assert names[i..][1..] == names[i + 1..] && names[i..][0] == names[i];
    BelowShrinks(fs, at, names[i]);
  }

  /** Bounds the recursion of the walk. */
  ghost function Extent(fs: FS, current: string): (n: nat)
    requires Tree(fs)
  {
    if LstatOk(fs, current) then |Below(fs, ResolvePath(fs, current, false).path)| + 1 else 0
  }

  /** What a walk that starts with `count` entries visited returns. */
  ghost predicate Visited(items: seq<Item>, path: string, prefix: string, max: int, count: nat, ok: bool, n: nat,
                          out: seq<Member>)
  {
    && ok == !(max > 0 && count + |items| > max)
    && (ok ==> n == count + |items| && out == Named(items, path, prefix))
  }

  lemma {:induction false} VisitedThen(a: seq<Item>, b: seq<Item>, path: string, prefix: string, max: int, count: nat,
                                       n: nat, out: seq<Member>, ok': bool, n': nat, out': seq<Member>)
    requires Visited(a, path, prefix, max, count, true, n, out)
    requires Visited(b, path, prefix, max, n, ok', n', out')
    ensures Visited(a + b, path, prefix, max, count, ok', n', out + out')
  {
    hide Named;
    NamedAppend(a, b, path, prefix);
  }

  lemma {:induction false} VisitedFailed(a: seq<Item>, b: seq<Item>, path: string, prefix: string, max: int, count: nat,
                                         n: nat, out: seq<Member>)
    requires Visited(a, path, prefix, max, count, false, n, out)
    ensures Visited(a + b, path, prefix, max, count, false, n, out)
  {
  }

  lemma {:induction false} ListIs(fs: FS, current: string)
    requires Tree(fs) && LstatOk(fs, current) && fs[ResolvePath(fs, current, false).path] == Dir
    ensures var at, names := ResolvePath(fs, current, false).path, List(fs, current);
            && names == SortedNames(Children(fs, at)) && names[0..] == names
            && forall n | n in names :: at + [n] in fs
  {
    hide Tree, ResolvePath;
    OpensWhatItSees(fs, current);
    var names := List(fs, current);
    assert names[0..] == names;
  }

  /** The visit of one entry: counted, and handed on unless it is special. */
  method Visit(fs: FS, current: string, prefix: string, max: int, count: nat, ghost path: string, ghost rel: Path)
    returns (ok: bool, n: nat, out: seq<Member>)
    requires Tree(fs) && LstatOk(fs, current) && current == Current(path, rel)
    ensures Visited([Item(rel, fs[ResolvePath(fs, current, false).path])], path, prefix, max, count, ok, n, out)
    ensures ok && max > 0 ==> n <= max
  {
    hide Tree, ResolvePath, ArchiveName, Current;
    var node := fs[ResolvePath(fs, current, false).path];
    NamedOne(Item(rel, node), path, prefix);
    n, out := count + 1, [];
    if max > 0 && n > max {
      return false, n, out;
    }
    ok := true;
    var name := ArchiveName(current, prefix);
    match node {
      case Dir => out := [MemberFor(name, Dir)];
      case Link(target) => out := [MemberFor(name, Link(target))];
      case File(_) =>
        OpensWhatItSees(fs, current);
        out := [MemberFor(name, File(ReadFile(fs, current)))];
      case Special =>
    }
  }

  /** `recurse`: the entry at `current` and everything under it. */
  method Recurse(fs: FS, current: string, prefix: string, max: int, count: nat, ghost path: string, ghost rel: Path)
    returns (ok: bool, n: nat, out: seq<Member>)
    requires Tree(fs) && current == Current(path, rel) && rel != []
    ensures !LstatOk(fs, current) ==> !ok
    ensures LstatOk(fs, current) ==>
              Visited(Tour(fs, ResolvePath(fs, current, false).path, rel), path, prefix, max, count, ok, n, out)
    decreases Extent(fs, current), 0
  {
    hide *;
    n, out := count, [];
    var st := ResolvePath(fs, current, false);
    LstatDef(fs, current);
    if !st.Ok? || st.path !in fs {
      return false, n, out;
    }
    ghost var at := st.path;
    ok, n, out := Visit(fs, current, prefix, max, count, path, rel);
    TourDef(fs, at, rel);
    ghost var first := [Item(rel, fs[at])];
    if !ok || fs[st.path] != Dir {
      if !ok && fs[at] == Dir {
        VisitedFailed(first, TourAll(fs, at, rel, SortedNames(Children(fs, at))), path, prefix, max, count, n, out);
      }
      return;
    }
    ListIs(fs, current);
    ghost var items := TourAll(fs, at, rel, List(fs, current));
    var more: seq<Member>;
    ghost var n0 := n;
    ok, n, more := RecurseAll(fs, current, prefix, max, n, List(fs, current), path, rel);
    VisitedThen(first, items, path, prefix, max, count, n0, out, ok, n, more);
    out := out + more;
  }

  lemma {:induction false} LstatDef(fs: FS, current: string)
    requires Tree(fs)
    ensures LstatOk(fs, current) == (ResolvePath(fs, current, false).Ok? && ResolvePath(fs, current, false).path in fs)
  {
  }

  lemma {:induction false} TourDef(fs: FS, at: Path, rel: Path)
    requires at in fs
    ensures forall n | n in SortedNames(Children(fs, at)) :: at + [n] in fs
    ensures Tour(fs, at, rel)
            == if fs[at] == Dir then [Item(rel, fs[at])] + TourAll(fs, at, rel, SortedNames(Children(fs, at)))
               else [Item(rel, fs[at])]
  {
    hide TourAll, SortedNames, Children;
  }

  /** The loop over a directory's entries. */
  method RecurseAll(fs: FS, current: string, prefix: string, max: int, count: nat, names: seq<string>,
                    ghost path: string, ghost rel: Path)
    returns (ok: bool, n: nat, out: seq<Member>)
    requires Tree(fs) && LstatOk(fs, current) && fs[ResolvePath(fs, current, false).path] == Dir
    requires current == Current(path, rel) && rel != []
    requires forall n | n in names :: ResolvePath(fs, current, false).path + [n] in fs
    ensures Visited(TourAll(fs, ResolvePath(fs, current, false).path, rel, names), path, prefix, max, count, ok, n, out)
    requires max <= 0 || count <= max
    decreases Extent(fs, current) - 1, 1
  {
    hide *;
    n, out, ok := count, [], true;
    LstatDef(fs, current);
    ghost var at := ResolvePath(fs, current, false).path;
    ghost var all := TourAll(fs, at, rel, names);
    ghost var done: seq<Item> := [];
    var i := 0;
    TourAllStart(fs, at, rel, names, path, prefix, max, count);
    while i < |names|
      invariant 0 <= i <= |names| && ok
      invariant forall k | 0 <= k < |names| :: at + [names[k]] in fs
      invariant Visited(done, path, prefix, max, count, true, n, out)
      invariant forall k | k in names[i..] :: at + [k] in fs
      invariant done + TourAll(fs, at, rel, names[i..]) == all
    {
      ghost var child, rest := Tour(fs, at + [names[i]], rel + [names[i]]), names[i + 1..];
      TourAllCons(fs, at, rel, names, i);
      ChildPlace(fs, current, names[i]);
      CurrentSnoc(path, rel, names[i]);
      ChildExtent(fs, current, names[i]);
      LstatDef(fs, JoinPath(current, names[i]));
      ghost var n0 := n;
      var more: seq<Member>;
      ok, n, more := Recurse(fs, JoinPath(current, names[i]), prefix, max, n, path, rel + [names[i]]);
      VisitedThen(done, child, path, prefix, max, count, n0, out, ok, n, more);
      CatAssoc(done, child, TourAll(fs, at, rel, rest));
      out := out + more;
      if !ok {
        VisitedFailed(done + child, TourAll(fs, at, rel, rest), path, prefix, max, count, n, out);
        return;
      }
      done := done + child;
      i := i + 1;
    }
    TourAllEnd(fs, at, rel, names[i..], done);
  }

  lemma {:induction false} ChildExtent(fs: FS, current: string, n: string)
    requires Tree(fs) && LstatOk(fs, current) && fs[ResolvePath(fs, current, false).path] == Dir
    requires ResolvePath(fs, current, false).path + [n] in fs
    ensures Extent(fs, JoinPath(current, n)) < Extent(fs, current)
  {
    hide Tree, ResolvePath, JoinPath, Below;
    ChildPlace(fs, current, n);
    BelowShrinks(fs, ResolvePath(fs, current, false).path, n);
  }

  lemma {:induction false} TourAllStart(fs: FS, at: Path, rel: Path, names: seq<string>, path: string, prefix: string,
                                        max: int, count: nat)
    requires at in fs && forall n | n in names :: at + [n] in fs
    requires max <= 0 || count <= max
    ensures names[0..] == names && [] + TourAll(fs, at, rel, names) == TourAll(fs, at, rel, names)
    ensures Visited([], path, prefix, max, count, true, count, [])
  {
    hide TourAll;
  }

  lemma {:induction false} TourAllEnd(fs: FS, at: Path, rel: Path, names: seq<string>, done: seq<Item>)
    requires at in fs && names == []
    ensures done + TourAll(fs, at, rel, names) == done
  {
  }

  /** `WriteTar`: the members of the archive, unless there are too many entries. */
  method WriteTar(fs: FS, path: string, max: int) returns (ok: bool, out: seq<Member>)
    requires Tree(fs)
    ensures ok == (&& LstatOk(fs, path)
                   && (max <= 0 || |Tour(fs, ResolvePath(fs, path, false).path, [BaseName(path)])| <= max))
    ensures ok ==> out == Named(Tour(fs, ResolvePath(fs, path, false).path, [BaseName(path)]), path, Prefix(path))
  {
    hide Tree, Tour, Named, ResolvePath, Prefix, BaseName;
    LstatDef(fs, path);
    out := [];
    if CleanPath(path).Invalid? {
      ResolveComponents(fs, path, false);
      return false, out;
    }
    var n;
    ok, n, out := Recurse(fs, path, Prefix(path), max, 0, path, [BaseName(path)]);
  }
}
