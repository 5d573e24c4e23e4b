/**
 The filesystem root of the file browser: the sandbox resolver that follows symbolic
 links in user space, clamping ".." at the root. The
 filesystem is a finite map from component lists to nodes and does not change
 while a path is being resolved.
 */
module RootFs {
  import opened Text
  import opened Paths

  const MAX_SYMLINKS: nat := 40

  // ----- the filesystem

  type Path = seq<string>

  datatype Node = Dir | File(bytes: seq<int>) | Link(target: string) | Special

  type FS = map<Path, Node>

  function Parent(p: Path): (r: Path)
    requires p != []
  {
    p[..|p| - 1]
  }

  /** Every entry sits in a directory and has a proper name. */
  ghost predicate Tree(fs: FS)
  {
    && [] in fs && fs[[]] == Dir
    && forall p | p in fs && p != [] :: Parent(p) in fs && fs[Parent(p)] == Dir && NameOk(p[|p| - 1])
  }

  /** A place the resolver can stand on: an entry that is not a symbolic link. */
  predicate Solid(fs: FS, p: Path)
  {
    p in fs && !fs[p].Link?
  }

  datatype Lookup = Found(node: Node) | Missing | NotADirectory

  /** `lstat` of one entry of a place reached without links. */
  function Lstat(fs: FS, dir: Path, name: string): (r: Lookup)
    requires Solid(fs, dir)
  {
    if fs[dir] != Dir then NotADirectory
    else if dir + [name] in fs then Found(fs[dir + [name]])
    else Missing
  }

  // ----- the resolver

  datatype Error = NotExist | NotDirectory | TooManyLinks | BadPath

  datatype Resolved = Ok(path: Path) | Fail(error: Error)

  function Pop(stack: Path): (r: Path)
  {
    if |stack| > 0 then stack[..|stack| - 1] else stack
  }

  function LinkBase(target: string, stack: Path): (r: Path)
  {
    if |target| > 0 && target[0] == SLASH then [] else stack
  }

  /** The component loop of `resolve`: where `remaining` leads from `stack`. */
  function Walk(fs: FS, stack: Path, remaining: seq<string>, hops: nat, follow: bool): (r: Resolved)
    requires Tree(fs) && Solid(fs, stack) && hops <= MAX_SYMLINKS
    decreases MAX_SYMLINKS - hops, |remaining|
  {
    if remaining == [] then Ok(stack)
    else
      var part, rest := remaining[0], remaining[1..];
      if part == ".." then
        PopSolid(fs, stack);
        Walk(fs, Pop(stack), rest, hops, follow)
      else
        match Lstat(fs, stack, part)
        case Missing => if rest == [] then Ok(stack + [part]) else Fail(NotExist)
        case NotADirectory => Fail(NotDirectory)
        case Found(node) =>
          if rest == [] && (!node.Link? || !follow) then Ok(stack + [part])
          else if !node.Link? then Walk(fs, stack + [part], rest, hops, follow)
          else if hops + 1 > MAX_SYMLINKS then Fail(TooManyLinks)
          else Walk(fs, LinkBase(node.target, stack), Components(TrimLeft(node.target)) + rest, hops + 1, follow)
  }

  lemma {:induction false} PopSolid(fs: FS, stack: Path)
    requires Tree(fs) && Solid(fs, stack)
    ensures Solid(fs, Pop(stack))
  {
    if |stack| > 0 {
      assert Parent(stack) in fs;
    }
  }

  /** What the loop still comes to; a finished one has arrived at its stack. */
  ghost function Outcome(fs: FS, stack: Path, remaining: seq<string>, hops: nat, follow: bool): (r: Resolved)
    requires Tree(fs) && hops <= MAX_SYMLINKS && (|remaining| > 0 ==> Solid(fs, stack))
  {
    if |remaining| == 0 then Ok(stack) else Walk(fs, stack, remaining, hops, follow)
  }

  /** One round of the loop. */
  lemma {:induction false} OutcomeStep(fs: FS, stack: Path, remaining: seq<string>, hops: nat, follow: bool)
    requires Tree(fs) && Solid(fs, stack) && hops <= MAX_SYMLINKS && |remaining| > 0
    ensures var part, rest, w := remaining[0], remaining[1..], Outcome(fs, stack, remaining, hops, follow);
            if part == ".." then Solid(fs, Pop(stack)) && w == Outcome(fs, Pop(stack), rest, hops, follow)
            else
              match Lstat(fs, stack, part)
              case Missing => w == if |rest| == 0 then Ok(stack + [part]) else Fail(NotExist)
              case NotADirectory => w == Fail(NotDirectory)
              case Found(node) =>
                if !node.Link? || (|rest| == 0 && !follow) then
                  (|rest| > 0 ==> Solid(fs, stack + [part])) && w == Outcome(fs, stack + [part], rest, hops, follow)
                else if hops == MAX_SYMLINKS then w == Fail(TooManyLinks)
                else
                  && Solid(fs, LinkBase(node.target, stack))
                  && w == Outcome(fs, LinkBase(node.target, stack), Components(TrimLeft(node.target)) + rest,
                     hops + 1, follow)
  {
    hide Components, TrimLeft;
    PopSolid(fs, stack);
  }

  /** `resolve` in the sandbox, on a path string. */
  function ResolvePath(fs: FS, p: string, follow: bool): (r: Resolved)
    requires Tree(fs)
  {
    match CleanPath(p)
    case Invalid => Fail(BadPath)
    case Clean(cleaned) => Walk(fs, [], Components(cleaned), 0, follow)
  }

  method Resolve(fs: FS, p: string, follow: bool) returns (r: Resolved)
    requires Tree(fs)
    ensures r == ResolvePath(fs, p, follow)
  {
    var cleaned := CleanPath(p);
    if cleaned.Invalid? {
      return Fail(BadPath);
    }
    r := Follow(fs, Components(cleaned.path), follow);
  }

  /** The loop is on its way to `all`. */
  ghost predicate Heading(fs: FS, stack: Path, remaining: seq<string>, hops: nat, follow: bool, all: Resolved)
  {
    && Tree(fs) && hops <= MAX_SYMLINKS && (|remaining| > 0 ==> Solid(fs, stack))
    && all == Outcome(fs, stack, remaining, hops, follow)
  }

  lemma {:induction false} HeadingStep(fs: FS, stack: Path, remaining: seq<string>, hops: nat, follow: bool,
                                       all: Resolved)
    requires |remaining| > 0 && Heading(fs, stack, remaining, hops, follow, all)
    ensures Solid(fs, stack)
    ensures var part, rest, info := remaining[0], remaining[1..], Lstat(fs, stack, remaining[0]);
            if part == ".." then Heading(fs, Pop(stack), rest, hops, follow, all)
            else if info.Missing? then all == if |rest| == 0 then Ok(stack + [part]) else Fail(NotExist)
            else if info.NotADirectory? then all == Fail(NotDirectory)
            else if !info.node.Link? || (|rest| == 0 &&
              !follow) then Heading(fs, stack + [part], rest, hops, follow, all)
            else if hops >= MAX_SYMLINKS then all == Fail(TooManyLinks)
            else Heading(fs, LinkBase(info.node.target, stack), Components(TrimLeft(info.node.target)) + rest,
              hops + 1, follow, all)
  {
    hide Components, TrimLeft, Outcome, Tree;
    OutcomeStep(fs, stack, remaining, hops, follow);
  }

  lemma {:induction false} HeadingStart(fs: FS, steps: seq<string>, follow: bool)
    requires Tree(fs)
    ensures Solid(fs, []) && Heading(fs, [], steps, 0, follow, Walk(fs, [], steps, 0, follow))
  {
  }

  lemma {:induction false} HeadingEnd(fs: FS, stack: Path, remaining: seq<string>, hops: nat, follow: bool,
                                      all: Resolved)
    requires |remaining| == 0 && Heading(fs, stack, remaining, hops, follow, all)
    ensures all == Ok(stack)
  {
  }

  method Follow(fs: FS, steps: seq<string>, follow: bool) returns (r: Resolved)
    requires Tree(fs)
    ensures r == Walk(fs, [], steps, 0, follow)
  {
    HeadingStart(fs, steps, follow);
    ghost var all := Walk(fs, [], steps, 0, follow);
    hide Tree, Walk, Heading, Solid, Lstat, Pop, LinkBase, Components, TrimLeft;
    var stack: Path := [];
    var remaining := steps;
    var hops := 0;
    while |remaining| > 0
      invariant hops <= MAX_SYMLINKS && Heading(fs, stack, remaining, hops, follow, all)
      decreases MAX_SYMLINKS - hops, |remaining|
    {
      HeadingStep(fs, stack, remaining, hops, follow, all);
      var part, rest := remaining[0], remaining[1..];
      if part == ".." {
        stack, remaining := Pop(stack), rest;
      } else {
        var next, info := stack + [part], Lstat(fs, stack, part);
        if !info.Found? {
          if |rest| == 0 && info.Missing? {
            return Ok(next);
          }
          return Fail(if info.Missing? then NotExist else NotDirectory);
        }
        if !info.node.Link? || (|rest| == 0 && !follow) {
          stack, remaining := next, rest;
        } else {
          if hops + 1 > MAX_SYMLINKS {
            return Fail(TooManyLinks);
          }
          hops := hops + 1;
          var more := Components(TrimLeft(info.node.target));
          stack, remaining := LinkBase(info.node.target, stack), more + rest;
        }
      }
    }
    HeadingEnd(fs, stack, remaining, hops, follow, all);
    r := Ok(stack);
  }

  // ----- what a resolution guarantees

  lemma {:induction false} PrefixIsDir(fs: FS, p: Path, k: nat)
    requires Tree(fs) && p in fs && k < |p|
    ensures p[..k] in fs && fs[p[..k]] == Dir
    decreases |p|
  {
    assert Parent(p) in fs && fs[Parent(p)] == Dir;
    if k < |p| - 1 {
      PrefixIsDir(fs, Parent(p), k);
      assert Parent(p)[..k] == p[..k];
    } else {
      assert p[..k] == Parent(p);
    }
  }

  lemma {:induction false} EntryNames(fs: FS, p: Path)
    requires Tree(fs) && p in fs
    ensures NamesOk(p)
    decreases |p|
  {
    if p != [] {
      EntryNames(fs, Parent(p));
      assert p == Parent(p) + [p[|p| - 1]];
    }
  }

  /** Every link target could have been stored: it holds no NUL. */
  ghost predicate TargetsOk(fs: FS)
  {
    forall p | p in fs && fs[p].Link? :: NUL !in fs[p].target
  }

  /** A path under the root: proper names only, every proper prefix a real directory. */
  ghost predicate UnderRoot(fs: FS, path: Path)
  {
    && NamesOk(path)
    && forall k | 0 <= k < |path| :: path[..k] in fs && fs[path[..k]] == Dir
  }

  lemma {:induction false} UnderRootStep(fs: FS, stack: Path, part: string)
    requires Tree(fs) && stack in fs && fs[stack] == Dir && NameOk(part)
    ensures UnderRoot(fs, stack + [part])
  {
    EntryNames(fs, stack);
    var path := stack + [part];
    forall k | 0 <= k < |path| ensures path[..k] in fs && fs[path[..k]] == Dir {
      if k < |stack| {
        PrefixIsDir(fs, stack, k);
        assert path[..k] == stack[..k];
      } else {
        assert path[..k] == stack;
      }
    }
  }

  lemma {:induction false} UnderRootEntry(fs: FS, p: Path)
    requires Tree(fs) && p in fs
    ensures UnderRoot(fs, p)
  {
    EntryNames(fs, p);
    forall k | 0 <= k < |p| ensures p[..k] in fs && fs[p[..k]] == Dir {
      PrefixIsDir(fs, p, k);
    }
  }

  /**
   Whatever the links, a successful resolution stays under the root: no "..",
   every proper prefix a real directory and not a link, and when the last
   component is followed the result is not a link either.
   */
  lemma {:induction false} WalkUnderRoot(fs: FS, stack: Path, remaining: seq<string>, hops: nat, follow: bool)
    requires Tree(fs) && TargetsOk(fs) && Solid(fs, stack) && hops <= MAX_SYMLINKS && StepsOk(remaining)
    ensures var r := Walk(fs, stack, remaining, hops, follow);
            r.Ok? ==> UnderRoot(fs, r.path) && (follow && r.path in fs ==> !fs[r.path].Link?)
    decreases MAX_SYMLINKS - hops, |remaining|
  {
    hide Components, TrimLeft, UnderRoot;
    if remaining == [] {
      UnderRootEntry(fs, stack);
    } else {
      var part, rest := remaining[0], remaining[1..];
      if part == ".." {
        PopSolid(fs, stack);
        WalkUnderRoot(fs, Pop(stack), rest, hops, follow);
      } else {
        var info := Lstat(fs, stack, part);
        if !info.NotADirectory? {
          UnderRootStep(fs, stack, part);
        }
        if info.Found? {
          if !info.node.Link? {
            WalkUnderRoot(fs, stack + [part], rest, hops, follow);
          } else if hops < MAX_SYMLINKS {
            var more := Components(TrimLeft(info.node.target));
            TrimLeftNoNul(info.node.target);
            ComponentsSteps(TrimLeft(info.node.target));
            StepsConcat(more, rest);
            WalkUnderRoot(fs, LinkBase(info.node.target, stack), more + rest, hops + 1, follow);
          }
        }
      }
    }
  }

  /** ... for every path string, however it is spelled. */
  lemma {:induction false} ResolveUnderRoot(fs: FS, p: string, follow: bool)
    requires Tree(fs) && TargetsOk(fs)
    ensures var r := ResolvePath(fs, p, follow);
            r.Ok? ==> UnderRoot(fs, r.path) && (follow && r.path in fs ==> !fs[r.path].Link?)
  {
    hide Walk, Components, UnderRoot;
    if NUL !in p {
      TrimLeftNoNul(p);
      var cleaned := CleanPath(p).path;
      ComponentsSteps(cleaned);
      WalkUnderRoot(fs, [], Components(cleaned), 0, follow);
    }
  }

  // ----- the same thing said recursively

  datatype Reach = At(path: Path, hops: nat) | Lost(error: Error)

  /**
   Root-clamped resolution: a link is resolved on its own, to the place it stands
   for, before anything after it is looked at. `last` says that nothing follows,
   which is when a missing entry is no error and `follow` matters.
   */
  ghost function Reached(fs: FS, dir: Path, steps: seq<string>, last: bool, hops: nat, follow: bool): (r: Reach)
    requires Tree(fs) && Solid(fs, dir) && hops <= MAX_SYMLINKS
    ensures r.At? ==> hops <= r.hops <= MAX_SYMLINKS && (!last ==> Solid(fs, r.path))
    decreases MAX_SYMLINKS - hops, |steps|
  {
    if steps == [] then At(dir, hops)
    else
      var step, rest := steps[0], steps[1..];
      if step == ".." then
        PopSolid(fs, dir);
        Reached(fs, Pop(dir), rest, last, hops, follow)
      else
        match Lstat(fs, dir, step)
        case Missing => if rest == [] && last then At(dir + [step], hops) else Lost(NotExist)
        case NotADirectory => Lost(NotDirectory)
        case Found(node) =>
          if rest == [] && (!node.Link? || (last && !follow)) then At(dir + [step], hops)
          else if !node.Link? then Reached(fs, dir + [step], rest, last, hops, follow)
          else if hops + 1 > MAX_SYMLINKS then Lost(TooManyLinks)
          else
            match Reached(fs, LinkBase(node.target, dir), Components(TrimLeft(node.target)),
                          last && rest == [], hops + 1, follow)
            case Lost(e) => Lost(e)
            case At(place, used) =>
              if rest == [] then At(place, used) else Reached(fs, place, rest, last, used, follow)
  }

  /** Continues a resolution with the steps that follow. */
  ghost function Onward(fs: FS, reach: Reach, rest: seq<string>, follow: bool): (r: Resolved)
    requires Tree(fs)
    requires reach.At? ==> reach.hops <= MAX_SYMLINKS && (rest != [] ==> Solid(fs, reach.path))
  {
    match reach
    case Lost(e) => Fail(e)
    case At(place, used) => if rest == [] then Ok(place) else Walk(fs, place, rest, used, follow)
  }

  lemma {:induction false} Uncons(steps: seq<string>, rest: seq<string>)
    requires steps != []
    ensures (steps + rest)[0] == steps[0] && (steps + rest)[1..] == steps[1..] + rest
    ensures |steps[1..] + rest| == |steps| - 1 + |rest|
  {
  }

  /**
   Substituting a link's target into the remaining components, as the loop does,
   resolves to what resolving the link first does, with the same hop count.
   */
  lemma {:induction false} WalkIsReached(fs: FS, stack: Path, steps: seq<string>, rest: seq<string>, hops: nat,
                                         follow: bool)
    requires Tree(fs) && Solid(fs, stack) && hops <= MAX_SYMLINKS
    ensures Walk(fs, stack, steps + rest, hops, follow)
            == Onward(fs, Reached(fs, stack, steps, rest == [], hops, follow), rest, follow)
    decreases MAX_SYMLINKS - hops, |steps|, 0
  {
    hide Components, TrimLeft, Tree;
    if steps == [] {
      assert steps + rest == rest;
    } else {
      var step, more := steps[0], steps[1..];
      Uncons(steps, rest);
      if step == ".." {
        PopSolid(fs, stack);
        WalkIsReached(fs, Pop(stack), more, rest, hops, follow);
      } else {
        var info := Lstat(fs, stack, step);
        if info.Found? {
          if !info.node.Link? {
            WalkIsReached(fs, stack + [step], more, rest, hops, follow);
          } else if hops < MAX_SYMLINKS {
            RootIsSolid(fs);
            WalkLinkIsReached(fs, LinkBase(info.node.target, stack), Components(TrimLeft(info.node.target)),
                              more, rest, hops + 1, follow);
          }
        }
      }
    }
  }

  lemma {:induction false} RootIsSolid(fs: FS)
    requires Tree(fs)
    ensures Solid(fs, [])
  {
  }

  /** The link case: first the target's components, then what was left. */
  lemma {:induction false} WalkLinkIsReached(fs: FS, dir: Path, target: seq<string>, more: seq<string>,
                                             rest: seq<string>,
                                             hops: nat, follow: bool)
    requires Tree(fs) && Solid(fs, dir) && hops <= MAX_SYMLINKS
    ensures var link := Reached(fs, dir, target, rest == [] && more == [], hops, follow);
            Walk(fs, dir, target + (more + rest), hops, follow)
            == match link
               case Lost(e) => Fail(e)
               case At(place, used) =>
                 if more == [] then Onward(fs, link, rest, follow)
                 else Onward(fs, Reached(fs, place, more, rest == [], used, follow), rest, follow)
    decreases MAX_SYMLINKS - hops, |target| + |more|, 1
  {
    hide Walk, Tree;
    var both := more + rest;
    WalkIsReached(fs, dir, target, both, hops, follow);
    var link := Reached(fs, dir, target, both == [], hops, follow);
    assert both == [] <==> rest == [] && more == [];
    if link.At? && more != [] {
      WalkIsReached(fs, link.path, more, rest, link.hops, follow);
    } else if more == [] {
      assert both == rest;
    }
  }

  // ----- resolving a result again

  /** Walking down through real directories arrives without a hop. */
  lemma {:induction false} WalkDown(fs: FS, dir: Path, names: seq<string>, hops: nat, follow: bool)
    requires Tree(fs) && Solid(fs, dir) && NamesOk(names) && hops <= MAX_SYMLINKS
    requires forall k | 0 <= k < |names| :: dir + names[..k] in fs && fs[dir + names[..k]] == Dir
    requires follow && dir + names in fs ==> !fs[dir + names].Link?
    ensures Walk(fs, dir, names, hops, follow) == Ok(dir + names)
    decreases |names|
  {
    hide Components, TrimLeft, Tree;
    if names == [] {
      assert dir + names == dir;
    } else {
      var name, rest := names[0], names[1..];
      assert dir + names[..0] == dir;
      assert NameOk(name);
      assert dir + names == (dir + [name]) + rest;
      if rest != [] {
        assert names[..1] == [name];
        assert Solid(fs, dir + [name]);
        forall k | 0 <= k < |rest| ensures dir + [name] + rest[..k] in fs && fs[dir + [name] + rest[..k]] == Dir {
          assert dir + [name] + rest[..k] == dir + names[..k + 1];
        }
        WalkDown(fs, dir + [name], rest, hops, follow);
      } else {
        assert dir + names == dir + [name];
      }
    }
  }

  /** The path string that names a place. */
  function Spelled(path: Path): (p: string)
  {
    [SLASH] + Join(path, SLASH)
  }

  lemma {:induction false} NamesAreSteps(names: seq<string>)
    requires NamesOk(names)
    ensures StepsOk(names)
  {
  }

  /** A path string is resolved through its components alone. */
  lemma {:induction false} ResolveComponents(fs: FS, p: string, follow: bool)
    requires Tree(fs)
    ensures ResolvePath(fs, p, follow) == if NUL in p then Fail(BadPath) else Walk(fs, [], Components(p), 0, follow)
  {
    hide Walk, Components, Tree;
    RootIsSolid(fs);
    if NUL !in p {
      ComponentsClean(p);
    }
  }

  lemma {:induction false} SpelledComponents(path: Path)
    requires StepsOk(path)
    ensures NUL !in Spelled(path) && Components(Spelled(path)) == path
  {
    hide Components;
    JoinNoNul(path);
    ComponentsJoin(path);
    ComponentsRooted(Join(path, SLASH));
  }

  /** Resolving the result of a resolution gives it back. */
  lemma {:induction false} ResolveIdempotent(fs: FS, p: string, follow: bool)
    requires Tree(fs) && TargetsOk(fs) && ResolvePath(fs, p, follow).Ok?
    ensures var r := ResolvePath(fs, p, follow); ResolvePath(fs, Spelled(r.path), follow) == r
  {
    var path := ResolvePath(fs, p, follow).path;
    ResolveUnderRoot(fs, p, follow);
    NamesAreSteps(path);
    SpelledComponents(path);
    ResolveComponents(fs, Spelled(path), follow);
    RootIsSolid(fs);
    forall k | 0 <= k < |path| ensures [] + path[..k] in fs && fs[[] + path[..k]] == Dir {
      assert [] + path[..k] == path[..k];
    }
    assert [] + path == path;
    hide *;
    WalkDown(fs, [], path, 0, follow);
  }

  /** The loop and the recursive semantics agree on every path string. */
  lemma {:induction false} ResolveAgrees(fs: FS, p: string, follow: bool)
    requires Tree(fs) && NUL !in p
    ensures Solid(fs, [])
    ensures ResolvePath(fs, p, follow)
            == match Reached(fs, [], Components(p), true, 0, follow)
               case At(path, _) => Ok(path)
               case Lost(e) => Fail(e)
  {
    hide Walk, Reached, Components, Tree;
    RootIsSolid(fs);
    ResolveComponents(fs, p, follow);
    assert Components(p) + [] == Components(p);
    WalkIsReached(fs, [], Components(p), [], 0, follow);
  }

  // ----- what a link stands for, said with path strings

  /** From the root to a directory by its own path. */
  lemma {:induction false} WalkInto(fs: FS, dir: Path, more: seq<string>, hops: nat, follow: bool)
    requires Tree(fs) && dir in fs && fs[dir] == Dir && hops <= MAX_SYMLINKS
    ensures Solid(fs, []) && Walk(fs, [], dir + more, hops, follow) == Walk(fs, dir, more, hops, follow)
    decreases |dir|
  {
    hide *;
    RootIsSolid(fs);
    if dir == [] {
      assert dir + more == more;
    } else {
      var up, name := Parent(dir), dir[|dir| - 1];
      InParent(fs, dir);
      WalkInto(fs, up, [name] + more, hops, follow);
      assert up + ([name] + more) == dir + more;
      WalkName(fs, up, name, more, hops, follow);
    }
  }

  lemma {:induction false} InParent(fs: FS, p: Path)
    requires Tree(fs) && p in fs && p != []
    ensures var up, name := Parent(p), p[|p| - 1];
            up in fs && fs[up] == Dir && NameOk(name) && up + [name] == p && |up| < |p|
  {
  }

  lemma {:induction false} WalkName(fs: FS, dir: Path, name: string, more: seq<string>, hops: nat, follow: bool)
    requires Tree(fs) && dir in fs && fs[dir] == Dir && NameOk(name) && hops <= MAX_SYMLINKS
    requires dir + [name] in fs && fs[dir + [name]] == Dir
    ensures Walk(fs, dir, [name] + more, hops, follow) == Walk(fs, dir + [name], more, hops, follow)
  {
    hide Tree, Components, TrimLeft;
    assert ([name] + more)[1..] == more && ([name] + more)[0] == name;
  }

  /** A hop more changes nothing, unless the hops run out. */
  lemma {:induction false} WalkHop(fs: FS, stack: Path, steps: seq<string>, hops: nat, follow: bool)
    requires Tree(fs) && Solid(fs, stack) && hops < MAX_SYMLINKS
    ensures var l, r := Walk(fs, stack, steps, hops + 1, follow), Walk(fs, stack, steps, hops, follow);
            l == r || l == Fail(TooManyLinks)
    decreases MAX_SYMLINKS - hops, |steps|
  {
    hide Components, TrimLeft, Tree;
    if steps != [] {
      var step, rest := steps[0], steps[1..];
      if step == ".." {
        PopSolid(fs, stack);
        WalkHop(fs, Pop(stack), rest, hops, follow);
      } else {
        var info := Lstat(fs, stack, step);
        if info.Found? && !(rest == [] && (!info.node.Link? || !follow)) {
          if !info.node.Link? {
            WalkHop(fs, stack + [step], rest, hops, follow);
          } else if hops + 1 < MAX_SYMLINKS {
            RootIsSolid(fs);
            WalkHop(fs, LinkBase(info.node.target, stack), Components(TrimLeft(info.node.target)) + rest, hops + 1,
                    follow);
          }
        }
      }
    }
  }

  /** The step through a link: its target starts at the root if it begins with a slash, else where the link is. */
  lemma {:induction false} WalkLink(fs: FS, dir: Path, name: string, rest: seq<string>, hops: nat, follow: bool)
    requires Tree(fs) && dir in fs && fs[dir] == Dir && NameOk(name) && hops <= MAX_SYMLINKS
    requires dir + [name] in fs && fs[dir + [name]].Link? && (follow || rest != [])
    ensures Solid(fs, [])
    ensures var target := fs[dir + [name]].target;
            Walk(fs, dir, [name] + rest, hops, follow)
            == if hops == MAX_SYMLINKS then Fail(TooManyLinks)
               else Walk(fs, if target != "" && target[0] == SLASH then [] else dir, Components(target) + rest,
                         hops + 1, follow)
  {
    RootIsSolid(fs);
    ComponentsTrimLeft(fs[dir + [name]].target);
    hide Components, TrimLeft, Tree;
    assert ([name] + rest)[1..] == rest && ([name] + rest)[0] == name;
  }

  /** The path string that a link stands for. */
  function StandsFor(dir: Path, target: string): (p: string)
  {
    if target != "" && target[0] == SLASH then target else JoinPath(Spelled(dir), target)
  }

  /**
   A path through a link resolves to what the path with the link's target in its place does:
   the target itself if it begins with a slash, or else joined to the directory that the link
   is in. Only the hop limit can come in between.
   */
  lemma {:induction false} LinkStandsFor(fs: FS, dir: Path, name: string, rest: string, follow: bool)
    requires Tree(fs) && dir in fs && fs[dir] == Dir && NameOk(name)
    requires dir + [name] in fs && fs[dir + [name]].Link? && NUL !in fs[dir + [name]].target
    requires follow || Components(rest) != []
    ensures var l := ResolvePath(fs, Spelled(dir + [name]) + [SLASH] + rest, follow);
            var r := ResolvePath(fs, StandsFor(dir, fs[dir + [name]].target) + [SLASH] + rest, follow);
            l == r || l == Fail(TooManyLinks)
  {
    hide *;
    var target := fs[dir + [name]].target;
    var link, instead := Spelled(dir + [name]) + [SLASH] + rest, StandsFor(dir, target) + [SLASH] + rest;
    var more := Components(rest);
    LinkStrings(fs, dir, name, target, rest);
    ResolveComponents(fs, link, follow);
    ResolveComponents(fs, instead, follow);
    if NUL !in rest {
      WalkInto(fs, dir, [name] + more, 0, follow);
      WalkLink(fs, dir, name, more, 0, follow);
      RootOrHere(fs, dir);
      var base := if target != "" && target[0] == SLASH then [] else dir;
      WalkHop(fs, base, Components(target) + more, 0, follow);
      if base == dir {
        WalkInto(fs, dir, Components(target) + more, 0, follow);
      }
      assert [] + (Components(target) + more) == Components(target) + more;
    }
  }

  lemma {:induction false} RootOrHere(fs: FS, dir: Path)
    requires Tree(fs) && dir in fs && fs[dir] == Dir
    ensures Solid(fs, []) && Solid(fs, dir) && 0 < MAX_SYMLINKS
  {
  }

  /** The components of both paths, and that neither has a NUL that the other has not. */
  lemma {:induction false} LinkStrings(fs: FS, dir: Path, name: string, target: string, rest: string)
    requires Tree(fs) && dir in fs && NameOk(name) && NUL !in target
    ensures var link, instead := Spelled(dir + [name]) + [SLASH] + rest, StandsFor(dir, target) + [SLASH] + rest;
            && (NUL in link <==> NUL in rest) && (NUL in instead <==> NUL in rest)
            && Components(link) == dir + ([name] + Components(rest))
            && Components(instead) == (if target != "" && target[0] == SLASH then [] else dir)
                                      + (Components(target) + Components(rest))
  {
    EntryNames(fs, dir);
    hide Components, Spelled, JoinPath, Tree, NameOk, TrimLeft, TrimRight;
    NamesAreSteps(dir);
    NamesAreSteps(dir + [name]);
    SpelledComponents(dir);
    SpelledComponents(dir + [name]);
    JoinPathNoNul(Spelled(dir), target);
    ComponentsJoinPath(Spelled(dir), target);
    ComponentsSlash(Spelled(dir + [name]), rest);
    ComponentsSlash(StandsFor(dir, target), rest);
    CatAssoc(dir, [name], Components(rest));
    CatAssoc(dir, Components(target), Components(rest));
    assert [] + (Components(target) + Components(rest)) == Components(target) + Components(rest);
  }

  /** The same with nothing after the link. */
  lemma {:induction false} LinkItself(fs: FS, dir: Path, name: string)
    requires Tree(fs) && dir in fs && fs[dir] == Dir && NameOk(name)
    requires dir + [name] in fs && fs[dir + [name]].Link? && NUL !in fs[dir + [name]].target
    ensures var l := ResolvePath(fs, Spelled(dir + [name]), true);
            var r := ResolvePath(fs, StandsFor(dir, fs[dir + [name]].target), true);
            l == r || l == Fail(TooManyLinks)
    ensures ResolvePath(fs, Spelled(dir + [name]), false) == Ok(dir + [name])
  {
    assert fs[dir + [name]].Link? && dir + [name] in fs;
    UnderRootEntry(fs, dir + [name]);
    var target, path := fs[dir + [name]].target, dir + [name];
    forall k | 0 <= k < |path| ensures [] + path[..k] in fs && fs[[] + path[..k]] == Dir {
      assert [] + path[..k] == path[..k];
    }
    assert [] + path == path;
    hide *;
    LinkStandsFor(fs, dir, name, "", true);
    TrailingSlash(fs, Spelled(path), true);
    TrailingSlash(fs, StandsFor(dir, target), true);
    NamesAreSteps(path);
    SpelledComponents(path);
    ResolveComponents(fs, Spelled(path), false);
    RootIsSolid(fs);
    WalkDown(fs, [], path, 0, false);
  }

  /** A final slash is not looked at. */
  lemma {:induction false} TrailingSlash(fs: FS, p: string, follow: bool)
    requires Tree(fs)
    ensures ResolvePath(fs, p + [SLASH] + "", follow) == ResolvePath(fs, p, follow)
  {
    hide Walk, Components, Tree;
    var q := p + [SLASH] + "";
    assert NUL in q <==> NUL in p;
    ResolveComponents(fs, p, follow);
    ResolveComponents(fs, q, follow);
    ComponentsSlash(p, "");
    ComponentsEmpty();
    assert Components(p) + [] == Components(p);
  }

  // ----- the hop limit

  /** Links in the root directory, each to the next, and an entry at the end that is none. */
  ghost predicate Chain(fs: FS, names: seq<string>)
  {
    && |names| >= 1 && [names[|names| - 1]] in fs && !fs[[names[|names| - 1]]].Link?
    && (forall k | 0 <= k < |names| :: NameOk(names[k]))
    && forall k | 0 <= k < |names| - 1 :: [names[k]] in fs && fs[[names[k]]] == Link(Spelled([names[k + 1]]))
  }

  lemma {:induction false} WalkChain(fs: FS, names: seq<string>, hops: nat)
    requires Tree(fs) && Chain(fs, names) && hops <= MAX_SYMLINKS
    ensures Solid(fs, [])
    ensures Walk(fs, [], [names[0]], hops, true)
            == if hops + |names| - 1 <= 40 then Ok([names[|names| - 1]]) else Fail(TooManyLinks)
    decreases |names|
  {
    hide *;
    ChainHead(fs, names);
    if |names| > 1 {
      ChainStep(fs, names[0], names[1], hops);
      if hops < 40 {
        WalkChain(fs, names[1..], hops + 1);
      }
    } else {
      ChainEnd(fs, names[0], hops);
    }
  }

  lemma {:induction false} ChainHead(fs: FS, names: seq<string>)
    requires Tree(fs) && Chain(fs, names)
    ensures |names| >= 1 && Solid(fs, []) && fs[[]] == Dir && NameOk(names[0]) && [names[0]] in fs && MAX_SYMLINKS == 40
    ensures |names| == 1 ==> !fs[[names[0]]].Link?
    ensures |names| > 1 ==>
              && NameOk(names[1]) && fs[[names[0]]] == Link(Spelled([names[1]])) && Chain(fs, names[1..])
              && names[1..][0] == names[1] && names[1..][|names| - 2] == names[|names| - 1]
  {
    hide NameOk, Spelled;
  }

  lemma {:induction false} ChainEnd(fs: FS, name: string, hops: nat)
    requires Tree(fs) && Solid(fs, []) && fs[[]] == Dir && NameOk(name) && [name] in fs && !fs[[name]].Link?
    requires hops <= MAX_SYMLINKS
    ensures Walk(fs, [], [name], hops, true) == Ok([name])
  {
    hide Tree, Components, TrimLeft;
    assert [] + [name] == [name] && [name][1..] == [];
  }

  lemma {:induction false} ChainStep(fs: FS, name: string, next: string, hops: nat)
    requires Tree(fs) && Solid(fs, []) && fs[[]] == Dir && NameOk(name) && NameOk(next) && hops <= MAX_SYMLINKS
    requires [name] in fs && fs[[name]] == Link(Spelled([next]))
    ensures Walk(fs, [], [name], hops, true)
            == if hops < MAX_SYMLINKS then Walk(fs, [], [next], hops + 1, true) else Fail(TooManyLinks)
  {
    assert StepsOk([next]) && Spelled([next]) != "" && Spelled([next])[0] == SLASH;
    hide *;
    SpelledComponents([next]);
    assert [] + [name] == [name] && [name] + [] == [name] && [next] + [] == [next];
    WalkLink(fs, [], name, [], hops, true);
  }

  /** A chain of links is followed to its end exactly when it has at most 40 of them. */
  lemma {:induction false} ChainResolves(fs: FS, names: seq<string>)
    requires Tree(fs) && Chain(fs, names)
    ensures ResolvePath(fs, Spelled([names[0]]), true)
            == if |names| - 1 <= 40 then Ok([names[|names| - 1]]) else Fail(TooManyLinks)
  {
    assert NameOk(names[0]) && StepsOk([names[0]]);
    hide Walk, Components, Tree, Spelled, NameOk;
    SpelledComponents([names[0]]);
    ResolveComponents(fs, Spelled([names[0]]), true);
    WalkChain(fs, names, 0);
  }
}
