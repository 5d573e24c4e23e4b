/**
 How resolutions of related paths, on related filesystems, relate: a prefix and
 the whole path, a filesystem and a larger one, a final component that is followed
 and one that is not. Extraction relies on these to find its destination again
 while it fills it.
 */
module Reaching {
  import opened Paths
  import opened RootFs
  import opened FileOps

  // ----- prefixes

  /** Resolving steps in two parts is resolving them in one. */
  lemma {:induction false} ReachedSplit(fs: FS, dir: Path, a: seq<string>, b: seq<string>, last: bool, hops: nat,
                                        follow: bool)
    requires Tree(fs) && Solid(fs, dir) && hops <= MAX_SYMLINKS && b != []
    ensures Reached(fs, dir, a + b, last, hops, follow)
            == match Reached(fs, dir, a, false, hops, follow)
               case Lost(e) => Lost(e)
               case At(place, used) => Reached(fs, place, b, last, used, follow)
    decreases MAX_SYMLINKS - hops, |a|
  {
    hide Components, TrimLeft, Tree;
    if a == [] {
      assert a + b == b;
    } else {
      var step, more := a[0], a[1..];
      Uncons(a, b);
      if step == ".." {
        PopSolid(fs, dir);
        ReachedSplit(fs, Pop(dir), more, b, last, hops, follow);
      } else {
        var info := Lstat(fs, dir, step);
        if info.Found? {
          if !info.node.Link? {
            ReachedSplit(fs, dir + [step], more, b, last, hops, follow);
          } else if hops < MAX_SYMLINKS {
            RootIsSolid(fs);
            var link := Reached(fs, LinkBase(info.node.target, dir), Components(TrimLeft(info.node.target)),
                                false, hops + 1, follow);
            if link.At? {
              ReachedSplit(fs, link.path, more, b, last, link.hops, follow);
            }
          }
        }
      }
    }
  }

  // ----- larger filesystems

  ghost predicate Extends(small: FS, large: FS)
  {
    forall p | p in small :: p in large && large[p] == small[p]
  }

  /** What was reached, entry by entry, is still there when entries are added. */
  lemma {:induction false} ReachedStable(fs: FS, large: FS, dir: Path, steps: seq<string>, hops: nat, follow: bool)
    requires Tree(fs) && Tree(large) && Extends(fs, large)
    requires Solid(fs, dir) && hops <= MAX_SYMLINKS
    requires Reached(fs, dir, steps, false, hops, follow).At?
    ensures Solid(large, dir)
    ensures Reached(large, dir, steps, false, hops, follow) == Reached(fs, dir, steps, false, hops, follow)
    decreases MAX_SYMLINKS - hops, |steps|
  {
    hide Components, TrimLeft, Tree;
    if steps != [] {
      var step, rest := steps[0], steps[1..];
      if step == ".." {
        PopSolid(fs, dir);
        ReachedStable(fs, large, Pop(dir), rest, hops, follow);
      } else {
        var node := Lstat(fs, dir, step).node;
        assert Lstat(large, dir, step) == Found(node);
        if !node.Link? {
          ReachedStable(fs, large, dir + [step], rest, hops, follow);
        } else {
          RootIsSolid(fs);
          var base, target := LinkBase(node.target, dir), Components(TrimLeft(node.target));
          ReachedStable(fs, large, base, target, hops + 1, follow);
          var link := Reached(fs, base, target, false, hops + 1, follow);
          if rest != [] {
            ReachedStable(fs, large, link.path, rest, link.hops, follow);
          }
        }
      }
    }
  }

  // ----- the final component

  /**
   Reading a path as a directory prefix, as a followed final path, and as an
   unfollowed one: they differ only in what happens to the final component.
   */
  lemma {:induction false} FinalComponent(fs: FS, dir: Path, steps: seq<string>, hops: nat, any: bool)
    requires Tree(fs) && Solid(fs, dir) && hops <= MAX_SYMLINKS
    ensures var n := Reached(fs, dir, steps, false, hops, any);
            var t := Reached(fs, dir, steps, true, hops, true);
            var f := Reached(fs, dir, steps, true, hops, false);
            && (n.At? ==> t == n && f.At? && f.path in fs)
            && (t.At? && t.path in fs ==> n == t)
            && (f.At? && Solid(fs, f.path) ==> n == f)
            && (f.Lost? ==> t.Lost?)
            && (f.At? && f.path !in fs ==> t == f)
            && (t.At? && t.path !in fs ==> n == Lost(NotExist))
    decreases MAX_SYMLINKS - hops, |steps|
  {
    hide Components, TrimLeft, Tree;
    if steps != [] {
      var step, rest := steps[0], steps[1..];
      if step == ".." {
        PopSolid(fs, dir);
        FinalComponent(fs, Pop(dir), rest, hops, any);
      } else {
        var info := Lstat(fs, dir, step);
        if info.Found? {
          if !info.node.Link? {
            FinalComponent(fs, dir + [step], rest, hops, any);
          } else if hops < MAX_SYMLINKS {
            RootIsSolid(fs);
            FinalLink(fs, dir, info.node.target, rest, hops, any);
          }
        }
      }
    }
  }

  /** The case of a link: an inner one is read alike, a final one is followed or not. */
  lemma {:induction false} FinalLink(fs: FS, dir: Path, target: string, rest: seq<string>, hops: nat, any: bool)
    requires Tree(fs) && Solid(fs, dir) && hops < MAX_SYMLINKS
    requires Solid(fs, LinkBase(target, dir))
    ensures var base, steps := LinkBase(target, dir), Components(TrimLeft(target));
            var n := Reached(fs, base, steps, false, hops + 1, any);
            var t := Reached(fs, base, steps, true, hops + 1, true);
            if rest == [] then
              && (n.At? ==> t == n)
              && (t.At? && t.path in fs ==> n == t)
              && (t.At? && t.path !in fs ==> n == Lost(NotExist))
            else
              && Reached(fs, base, steps, false, hops + 1, true) == n
              && Reached(fs, base, steps, false, hops + 1, false) == n
              && (n.At? ==>
                    var n' := Reached(fs, n.path, rest, false, n.hops, any);
                    var t' := Reached(fs, n.path, rest, true, n.hops, true);
                    var f' := Reached(fs, n.path, rest, true, n.hops, false);
                    && (n'.At? ==> t' == n' && f'.At? && f'.path in fs)
                    && (t'.At? && t'.path in fs ==> n' == t')
                    && (f'.At? && Solid(fs, f'.path) ==> n' == f')
                    && (f'.Lost? ==> t'.Lost?)
                    && (f'.At? && f'.path !in fs ==> t' == f')
                    && (t'.At? && t'.path !in fs ==> n' == Lost(NotExist)))
    decreases MAX_SYMLINKS - hops - 1, |Components(TrimLeft(target))| + |rest| + 1
  {
    hide Reached, Components, TrimLeft, Tree;
    var base, steps := LinkBase(target, dir), Components(TrimLeft(target));
    var n := Reached(fs, base, steps, false, hops + 1, any);
    if rest == [] {
      FinalComponent(fs, base, steps, hops + 1, any);
    } else {
      FollowIsMoot(fs, base, steps, hops + 1, any, true);
      FollowIsMoot(fs, base, steps, hops + 1, any, false);
      if n.At? {
        FinalComponent(fs, n.path, rest, n.hops, any);
      }
    }
  }

  /** `follow` only concerns a final component. */
  lemma {:induction false} FollowIsMoot(fs: FS, dir: Path, steps: seq<string>, hops: nat, f: bool, g: bool)
    requires Tree(fs) && Solid(fs, dir) && hops <= MAX_SYMLINKS
    ensures Reached(fs, dir, steps, false, hops, f) == Reached(fs, dir, steps, false, hops, g)
    decreases MAX_SYMLINKS - hops, |steps|
  {
    hide Components, TrimLeft, Tree;
    if steps != [] {
      var step, rest := steps[0], steps[1..];
      if step == ".." {
        PopSolid(fs, dir);
        FollowIsMoot(fs, Pop(dir), rest, hops, f, g);
      } else {
        var info := Lstat(fs, dir, step);
        if info.Found? {
          if !info.node.Link? {
            FollowIsMoot(fs, dir + [step], rest, hops, f, g);
          } else if hops < MAX_SYMLINKS {
            RootIsSolid(fs);
            var base, target := LinkBase(info.node.target, dir), Components(TrimLeft(info.node.target));
            FollowIsMoot(fs, base, target, hops + 1, f, g);
            var link := Reached(fs, base, target, false, hops + 1, f);
            if rest != [] && link.At? {
              FollowIsMoot(fs, link.path, rest, link.hops, f, g);
            }
          }
        }
      }
    }
  }

  /** The hops already made only matter when they run out. */
  lemma {:induction false} HopsMoot(fs: FS, dir: Path, steps: seq<string>, h: nat, g: nat)
    requires Tree(fs) && Solid(fs, dir) && h <= MAX_SYMLINKS && g <= MAX_SYMLINKS
    ensures var a := Reached(fs, dir, steps, false, h, true);
            var b := Reached(fs, dir, steps, false, g, true);
            a.At? ==> if b.At? then b.path == a.path else b == Lost(TooManyLinks)
    decreases MAX_SYMLINKS - h, |steps|
  {
    hide Components, TrimLeft, Tree;
    if steps != [] {
      var step, rest := steps[0], steps[1..];
      if step == ".." {
        PopSolid(fs, dir);
        HopsMoot(fs, Pop(dir), rest, h, g);
      } else {
        var info := Lstat(fs, dir, step);
        if info.Found? {
          if !info.node.Link? {
            HopsMoot(fs, dir + [step], rest, h, g);
          } else if h < MAX_SYMLINKS && g < MAX_SYMLINKS {
            RootIsSolid(fs);
            var base, target := LinkBase(info.node.target, dir), Components(TrimLeft(info.node.target));
            HopsMoot(fs, base, target, h + 1, g + 1);
            var a := Reached(fs, base, target, false, h + 1, true);
            var b := Reached(fs, base, target, false, g + 1, true);
            if rest != [] && a.At? && b.At? {
              HopsMoot(fs, a.path, rest, a.hops, b.hops);
            }
          }
        }
      }
    }
  }

  // ----- making directories

  /** Where a directory prefix leads. */
  ghost function PlaceOf(fs: FS, parts: seq<string>): (r: Reach)
    requires Tree(fs)
    ensures r.At? ==> r.hops <= MAX_SYMLINKS && Solid(fs, r.path)
  {
    RootIsSolid(fs);
    Reached(fs, [], parts, false, 0, true)
  }

  ghost predicate DirAt(fs: FS, parts: seq<string>)
    requires Tree(fs)
  {
    var place := PlaceOf(fs, parts);
    place.At? && fs[place.path] == Dir
  }

  /** Every prefix of the path names a directory, perhaps through links. */
  ghost predicate Leads(fs: FS, parts: seq<string>)
    requires Tree(fs)
  {
    forall k | 0 <= k <= |parts| :: DirAt(fs, parts[..k])
  }

  lemma {:induction false} ResolveSpelled(fs: FS, parts: seq<string>, follow: bool)
    requires Tree(fs) && StepsOk(parts)
    ensures Solid(fs, [])
    ensures ResolvePath(fs, Spelled(parts), follow)
            == match Reached(fs, [], parts, true, 0, follow)
               case At(path, _) => Ok(path)
               case Lost(e) => Fail(e)
  {
    hide *;
    SpelledComponents(parts);
    ResolveAgrees(fs, Spelled(parts), follow);
  }

  /** `Stat` sees a directory exactly where the path leads to one. */
  lemma {:induction false} StatIsDirAt(fs: FS, parts: seq<string>)
    requires Tree(fs) && StepsOk(parts)
    ensures StatIsDir(fs, Spelled(parts)) == DirAt(fs, parts)
    ensures DirAt(fs, parts) ==> !Mkdir(fs, Spelled(parts)).ok
  {
    hide Reached, Tree, ResolvePath, Spelled;
    ResolveSpelled(fs, parts, true);
    ResolveSpelled(fs, parts, false);
    FinalComponent(fs, [], parts, 0, true);
  }

  /** A path on which the hops run out is left alone. */
  lemma {:induction false} MkdirTooFar(fs: FS, parts: seq<string>)
    requires Tree(fs) && StepsOk(parts) && PlaceOf(fs, parts) == Lost(TooManyLinks)
    ensures !Mkdir(fs, Spelled(parts)).ok
  {
    hide Reached, Tree, Spelled, ResolvePath;
    ResolveSpelled(fs, parts, false);
    FinalComponent(fs, [], parts, 0, true);
  }

  lemma {:induction false} ReachedOne(fs: FS, dir: Path, step: string, hops: nat)
    requires Tree(fs) && dir in fs && fs[dir] == Dir && hops <= MAX_SYMLINKS
    ensures var f := Reached(fs, dir, [step], true, hops, false);
            f.At? && (f.path !in fs ==> f == At(dir + [step], hops))
    ensures NameOk(step) ==> Reached(fs, dir, [step], true, hops, false) == At(dir + [step], hops)
    ensures step != ".." && dir + [step] in fs && fs[dir + [step]] == Dir ==>
              Reached(fs, dir, [step], false, hops, true) == At(dir + [step], hops)
  {
    hide Components, TrimLeft;
    PopSolid(fs, dir);
    assert [step][1..] == [];
  }

  /** A directory that `Mkdir` made is where the path then leads. */
  lemma {:induction false} MadeIsDirAt(fs: FS, parts: seq<string>, step: string)
    requires Tree(fs) && StepsOk(parts + [step]) && DirAt(fs, parts)
    ensures var made := Mkdir(fs, Spelled(parts + [step]));
            var place := PlaceOf(fs, parts).path + [step];
            && (made.ok ==> place !in fs && made.fs == fs[place := Dir] && PlaceOf(made.fs, parts + [step]).At?
                            && PlaceOf(made.fs, parts + [step]).path == place)
            && (NameOk(step) && place !in fs ==> made.ok)
  {
    hide Reached, Tree, ResolvePath, Spelled;
    var at := PlaceOf(fs, parts);
    ResolveSpelled(fs, parts + [step], false);
    FollowIsMoot(fs, [], parts, 0, true, false);
    ReachedSplit(fs, [], parts, [step], true, 0, false);
    ReachedOne(fs, at.path, step, at.hops);
    assert Parent(at.path + [step]) == at.path;
    var made := Mkdir(fs, Spelled(parts + [step]));
    if made.ok {
      ReachedStable(fs, made.fs, [], parts, 0, true);
      ReachedSplit(made.fs, [], parts, [step], false, 0, true);
      assert step != "..";
      ReachedOne(made.fs, at.path, step, at.hops);
    }
  }

  lemma {:induction false} StepsPrefix(parts: seq<string>, k: nat)
    requires StepsOk(parts) && k <= |parts|
    ensures StepsOk(parts[..k])
  {
  }

  lemma {:induction false} LeadsAt(fs: FS, parts: seq<string>, k: nat)
    requires Tree(fs) && Leads(fs, parts) && k <= |parts|
    ensures DirAt(fs, parts[..k]) && DirAt(fs, parts) && PlaceOf(fs, parts).At?
  {
    assert parts[..|parts|] == parts;
  }

  /** On a path that already leads somewhere, `MkdirAll` changes nothing. */
  lemma {:induction false} MkdirFromLeads(fs: FS, parts: seq<string>, k: nat)
    requires Tree(fs) && StepsOk(parts) && k <= |parts| && Leads(fs, parts)
    ensures MkdirFrom(fs, parts, k) == Effect(fs, true)
    decreases |parts| - k
  {
    hide Tree, Leads, DirAt, Mkdir, StatIsDir, StepsOk, Spelled;
    if k < |parts| {
      LeadsAt(fs, parts, k + 1);
      StepsPrefix(parts, k + 1);
      StatIsDirAt(fs, parts[..k + 1]);
      MkdirFromLeads(fs, parts, k + 1);
    }
  }

  lemma {:induction false} DirAtStable(fs: FS, large: FS, parts: seq<string>)
    requires Tree(fs) && Tree(large) && Extends(fs, large) && DirAt(fs, parts)
    ensures DirAt(large, parts) && PlaceOf(large, parts) == PlaceOf(fs, parts)
  {
    hide Reached, Tree;
    RootIsSolid(fs);
    ReachedStable(fs, large, [], parts, 0, true);
  }

  lemma {:induction false} LeadsStable(fs: FS, large: FS, parts: seq<string>)
    requires Tree(fs) && Tree(large) && Extends(fs, large) && Leads(fs, parts)
    ensures Leads(large, parts) && PlaceOf(large, parts) == PlaceOf(fs, parts)
  {
    hide Tree, DirAt, PlaceOf, Extends;
    forall k | 0 <= k <= |parts|
      ensures DirAt(large, parts[..k]) && PlaceOf(large, parts[..k]) == PlaceOf(fs, parts[..k])
    {
      DirAtStable(fs, large, parts[..k]);
    }
    assert parts[..|parts|] == parts;
  }

  /** Whether or not it succeeds, `MkdirAll` only adds directories. */
  ghost predicate AddsDirs(fs: FS, large: FS)
  {
    Extends(fs, large) && forall p | p in large && p !in fs :: large[p] == Dir
  }

  lemma {:induction false} MkdirFromAdds(fs: FS, parts: seq<string>, k: nat)
    requires Tree(fs) && k <= |parts|
    ensures AddsDirs(fs, MkdirFrom(fs, parts, k).fs)
    decreases |parts| - k
  {
    hide Tree, ResolvePath, StatIsDir, Spelled;
    if k < |parts| {
      MkdirFromAdds(fs, parts, k + 1);
      var made := Mkdir(fs, Spelled(parts[..k + 1]));
      MkdirFromAdds(made.fs, parts, k + 1);
    }
  }

  /** A prefix leads so far. */
  ghost predicate LeadsTo(fs: FS, parts: seq<string>, k: nat)
    requires Tree(fs) && k <= |parts|
  {
    forall j | 0 <= j <= k :: DirAt(fs, parts[..j])
  }

  /** When `MkdirAll` succeeds, every prefix of the path leads to a directory. */
  lemma {:induction false} MkdirFromMakes(fs: FS, parts: seq<string>, k: nat)
    requires Tree(fs) && StepsOk(parts) && k <= |parts| && LeadsTo(fs, parts, k)
    requires MkdirFrom(fs, parts, k).ok
    ensures Leads(MkdirFrom(fs, parts, k).fs, parts)
    decreases |parts| - k
  {
    hide Tree, Reached, Mkdir, StatIsDir, Spelled, StepsOk;
    if k < |parts| {
      var pre, step, built := parts[..k], parts[k], Spelled(parts[..k + 1]);
      assert pre + [step] == parts[..k + 1];
      assert DirAt(fs, pre);
      StepsPrefix(parts, k + 1);
      var made := Mkdir(fs, built);
      MadeIsDirAt(fs, pre, step);
      StatIsDirAt(fs, parts[..k + 1]);
      if made.ok {
        assert DirAt(made.fs, parts[..k + 1]);
        LeadsFurther(fs, made.fs, parts, k);
        MkdirFromMakes(made.fs, parts, k + 1);
      } else {
        MkdirFromMakes(fs, parts, k + 1);
      }
    }
  }

  lemma {:induction false} LeadsFurther(fs: FS, large: FS, parts: seq<string>, k: nat)
    requires Tree(fs) && Tree(large) && Extends(fs, large)
    requires k < |parts| && LeadsTo(fs, parts, k) && DirAt(large, parts[..k + 1])
    ensures LeadsTo(large, parts, k + 1)
  {
    hide Tree, DirAt, PlaceOf, Extends;
    forall j | 0 <= j <= k + 1 ensures DirAt(large, parts[..j]) {
      if j <= k {
        DirAtStable(fs, large, parts[..j]);
      }
    }
  }

  /** `MkdirAll` of a new name in a directory that the rest leads to. */
  lemma {:induction false} MkdirFromLast(fs: FS, parts: seq<string>, name: string, k: nat)
    requires Tree(fs) && StepsOk(parts) && NameOk(name) && Leads(fs, parts) && k <= |parts|
    requires PlaceOf(fs, parts).At? && PlaceOf(fs, parts).path + [name] !in fs
    ensures MkdirFrom(fs, parts + [name], k) == Effect(fs[PlaceOf(fs, parts).path + [name] := Dir], true)
    decreases |parts| - k
  {
    var all := parts + [name];
    assert StepsOk(all);
    hide Tree, Leads, Mkdir, StatIsDir, StepsOk, Spelled, PlaceOf, DirAt;
    LeadsAt(fs, parts, |parts|);
    if k < |parts| {
      assert all[..k + 1] == parts[..k + 1];
      LeadsAt(fs, parts, k + 1);
      StepsPrefix(parts, k + 1);
      StatIsDirAt(fs, parts[..k + 1]);
      MkdirFromLast(fs, parts, name, k + 1);
    } else {
      assert all[..k + 1] == all;
      MadeIsDirAt(fs, parts, name);
    }
  }
}
