/**
 Archives that leave their destination, each with all names safe: through a link that the
 archive itself makes, through a link that it overwrites, and, when overwriting, through a
 destination whose cleaned spelling passes through the directory it names.
 */
module Escapes {
  import opened Text
  import opened Paths
  import opened RootFs
  import opened FileOps
  import opened Reaching
  import opened Extract
  import opened Rebuild
  import opened Outcomes
  import opened Destination
  import opened Confinement

  // ----- through links

  /** An entry is reached by its own path, without a hop. */
  lemma {:induction false} EntryReached(fs: FS, p: Path, hops: nat)
    requires Tree(fs) && Solid(fs, p) && hops <= MAX_SYMLINKS
    ensures Solid(fs, []) && Reached(fs, [], p, false, hops, true) == At(p, hops)
    decreases |p|
  {
    RootIsSolid(fs);
    if p != [] {
      var up, name := Parent(p), p[|p| - 1];
      assert up in fs && fs[up] == Dir && NameOk(name) && p == up + [name];
      hide Tree, Reached, NameOk;
      EntryReached(fs, up, hops);
      ReachedSplit(fs, [], up, [name], false, hops, true);
      ReachedSolid(fs, up, name, hops);
    }
  }

  /** A link with a rooted target leads where the target leads. */
  lemma {:induction false} LinkGoes(fs: FS, dir: Path, name: string, steps: seq<string>, hops: nat, end: Reach)
    requires Tree(fs) && dir in fs && fs[dir] == Dir && NameOk(name) && hops < MAX_SYMLINKS && StepsOk(steps)
    requires dir + [name] in fs && fs[dir + [name]] == Link(Spelled(steps)) && Solid(fs, [])
    requires end.At? && Reached(fs, [], steps, false, hops + 1, true) == end
    ensures Reached(fs, dir, [name], false, hops, true) == end
    ensures Reached(fs, dir, [name], true, hops, true) == end
  {
    var target := Spelled(steps);
    SpelledComponents(steps);
    ComponentsTrimLeft(target);
    assert LinkBase(target, dir) == [];
    FinalComponent(fs, dir, [name], hops, true);
    hide Components, TrimLeft, Tree, Spelled;
    assert [name][1..] == [];
  }

  lemma {:induction false} LinkTo(fs: FS, dir: Path, name: string, p: Path, hops: nat)
    requires Tree(fs) && dir in fs && fs[dir] == Dir && NameOk(name) && hops < MAX_SYMLINKS
    requires dir + [name] in fs && fs[dir + [name]] == Link(Spelled(p)) && Solid(fs, p)
    ensures Reached(fs, dir, [name], false, hops, true) == At(p, hops + 1)
    ensures Reached(fs, dir, [name], true, hops, true) == At(p, hops + 1)
  {
    assert p in fs;
    hide *;
    EntryNames(fs, p);
    NamesAreSteps(p);
    EntryReached(fs, p, hops + 1);
    LinkGoes(fs, dir, name, p, hops, At(p, hops + 1));
  }

  /** Two parts of a path lead one after the other. */
  lemma {:induction false} LeadsThrough(fs: FS, parts: seq<string>, name: string, q: Path, hops: nat)
    requires Tree(fs) && Leads(fs, parts) && PlaceOf(fs, parts).At? && q in fs && fs[q] == Dir
    requires Reached(fs, PlaceOf(fs, parts).path, [name], false, PlaceOf(fs, parts).hops, true) == At(q, hops)
    ensures Leads(fs, parts + [name]) && PlaceOf(fs, parts + [name]) == At(q, hops)
  {
    hide Reached, Tree;
    RootIsSolid(fs);
    ReachedSplit(fs, [], parts, [name], false, 0, true);
    var all := parts + [name];
    forall k | 0 <= k <= |all| ensures DirAt(fs, all[..k]) {
      if k <= |parts| {
        assert all[..k] == parts[..k];
      } else {
        assert all[..k] == all;
      }
    }
  }

  /** Neither spelling of the destination uses up the hops. */
  ghost predicate HopToSpare(fs: FS, dest: string)
    requires Tree(fs)
  {
    var raw, clean := PlaceOf(fs, Components(dest)), PlaceOf(fs, CleanDest(dest));
    raw.At? && raw.hops < MAX_SYMLINKS && clean.At? && clean.hops < MAX_SYMLINKS
  }

  /** A directory given by its own path. */
  lemma {:induction false} SpelledDest(fs: FS, d: Path)
    requires Tree(fs) && d in fs && fs[d] == Dir
    ensures Dest(fs, Spelled(d), d) && HopToSpare(fs, Spelled(d))
  {
    hide Tree, Leads, PlaceOf, Components, Spelled, CleanDest, NamesOk;
    SpelledLeads(fs, d);
    SpelledClean(d) by { EntryNames(fs, d); }
  }

  lemma {:induction false} SpelledClean(d: Path)
    requires NamesOk(d)
    ensures NUL !in Spelled(d) && Components(Spelled(d)) == d && CleanDest(Spelled(d)) == d
  {
    hide Components, Spelled, NamesOk;
    NamesAreSteps(d);
    SpelledComponents(d);
    LexicalNames(true, d, []);
    assert [] + d == d;
  }

  lemma {:induction false} SpelledLeads(fs: FS, d: Path)
    requires Tree(fs) && d in fs && fs[d] == Dir
    ensures Leads(fs, d) && PlaceOf(fs, d) == At(d, 0) && 0 < MAX_SYMLINKS
  {
    hide Tree, Reached;
    forall k | 0 <= k <= |d| ensures DirAt(fs, d[..k]) && PlaceOf(fs, d[..k]) == At(d[..k], 0) {
      if k < |d| {
        PrefixIsDir(fs, d, k);
      } else {
        assert d[..k] == d;
      }
      EntryReached(fs, d[..k], 0);
    }
    assert d[..|d|] == d;
  }

  lemma {:induction false} HopStable(fs: FS, large: FS, dest: string, d: Path)
    requires Tree(fs) && Tree(large) && Extends(fs, large) && Dest(fs, dest, d) && HopToSpare(fs, dest)
    ensures HopToSpare(large, dest)
  {
    hide Leads, PlaceOf, Tree, CleanDest, Components;
    LeadsStable(fs, large, CleanDest(dest));
    LeadsStable(fs, large, Components(dest));
  }

  /** Through a link in the destination, a member's parent is the link's target. */
  lemma {:induction false} ThroughLink(fs: FS, dest: string, d: Path, x: string, f: string, o: Path)
    requires Tree(fs) && Dest(fs, dest, d) && HopToSpare(fs, dest) && NameOk(x)
    requires d + [x] in fs && fs[d + [x]] == Link(Spelled(o)) && o in fs && fs[o] == Dir
    ensures LeadsInto(fs, dest, [x, f], o) && ParentLeads(fs, dest, [x, f])
  {
    assert [x, f][..1] == [x];
    hide Tree, Leads, PlaceOf, Components, CleanDest, Dest, NameOk, Spelled;
    DestParts(fs, dest, d);
    DestIsDir(fs, dest, d);
    ThroughOne(fs, Components(dest), x, o);
    ThroughOne(fs, CleanDest(dest), x, o);
  }

  lemma {:induction false} ThroughOne(fs: FS, parts: seq<string>, x: string, o: Path)
    requires Tree(fs) && Leads(fs, parts) && PlaceOf(fs, parts).At? && PlaceOf(fs, parts).hops < MAX_SYMLINKS
    requires NameOk(x) && o in fs && fs[o] == Dir
    requires var d := PlaceOf(fs, parts).path;
             d in fs && fs[d] == Dir && d + [x] in fs && fs[d + [x]] == Link(Spelled(o))
    ensures Leads(fs, parts + [x]) && PlaceOf(fs, parts + [x]).At? && PlaceOf(fs, parts + [x]).path == o
  {
    hide Tree, Reached, Leads, NameOk, Spelled;
    var at := PlaceOf(fs, parts);
    LinkTo(fs, at.path, x, o, at.hops);
    LeadsThrough(fs, parts, x, o, at.hops + 1);
  }

  lemma {:induction false} TwoMembers(p: Progress, a: Member, b: Member, dest: string, overwrite: bool, maxEntries: int)
    requires Tree(p.fs) && p.ok && Advance(p, a, dest, overwrite, maxEntries).ok
    ensures ExtractFrom(p, [a, b], 0, dest, overwrite, maxEntries)
            == Advance(Advance(p, a, dest, overwrite, maxEntries), b, dest, overwrite, maxEntries)
  {
    hide Tree, Advance;
    var one := Advance(p, a, dest, overwrite, maxEntries);
    var two := Advance(one, b, dest, overwrite, maxEntries);
    assert ExtractFrom(two, [a, b], 2, dest, overwrite, maxEntries) == two;
    assert ExtractFrom(one, [a, b], 1, dest, overwrite, maxEntries) == two;
  }

  lemma {:induction false} LinkMade(fs: FS, d: Path, x: string, node: Node)
    requires Tree(fs) && d in fs && fs[d] == Dir && NameOk(x) && d + [x] !in fs
    ensures Rooted(fs, d, [x]) && Tree(fs[d + [x] := node]) && Extends(fs, fs[d + [x] := node])
  {
    assert d + [x][..0] == d;
    CreateMember(fs, d, [x], node);
  }

  /** The first member of both archives below: a link `x`. */
  lemma {:induction false} PlantLink(fs: FS, dest: string, d: Path, x: string, target: string, overwrite: bool,
                                     limits: Limits)
    requires Tree(fs) && Dest(fs, dest, d) && HopToSpare(fs, dest) && NameOk(x) && Plain([x]) && d + [x] !in fs
    requires limits.maxEntries <= 0 || limits.maxEntries >= 2
    ensures var next := fs[d + [x] := Link(target)];
            && Tree(next) && Dest(next, dest, d) && HopToSpare(next, dest) && NUL !in dest
            && d in next && next[d] == Dir
            && Advance(Progress(fs, 0, limits.maxBytes, true), Member(x, TypeSymlink, target, []), dest, overwrite,
                       limits.maxEntries)
               == Progress(next, 1, limits.maxBytes, true)
  {
    var item := Item([x], Link(target));
    assert MemberOf(item) == Member(x, TypeSymlink, target, []);
    hide *;
    DestIsDir(fs, dest, d);
    LinkMade(fs, d, x, Link(target));
    var next := fs[d + [x] := Link(target)];
    DestStable(fs, next, dest, d);
    DestIsDir(next, dest, d);
    DestParts(next, dest, d);
    HopStable(fs, next, dest, d);
    AdvanceItem(Progress(fs, 0, limits.maxBytes, true), item, dest, d, overwrite, limits.maxEntries);
  }

  lemma {:induction false} PlaceElsewhere(fs: FS, d: Path, x: string, o: Path, f: string)
    requires o in fs && !(d <= o) && d + [x] !in fs
    ensures o != d + [x] && o + [f] != d + [x] && !(d < o + [f])
  {
    assert (o + [f])[..|o|] == o;
    assert (d + [x])[..|d|] == d;
    assert d < o + [f] ==> d <= o;
  }

  lemma {:induction false} Outside(fs: FS, d: Path, x: string, link: Node, place: Path, node: Node)
    requires place != d + [x] && !(d < place) && (place in fs ==> fs[place] != node)
    ensures !OnlyBelow(fs, fs[d + [x] := link][place := node], d)
  {
    assert place in fs[d + [x] := link][place := node];
  }

  /**
   An archive of a link `x` to a directory `o` outside the destination and a file `x/f`
   leaves the destination: the file is made in `o`. This needs no "..", no overwriting
   and nothing in the destination, and every member's name is safe.
   */
  lemma {:induction false} LinkEscapes(fs: FS, dest: string, d: Path, x: string, o: Path, f: string, body: seq<int>,
                                       overwrite: bool, limits: Limits)
    requires Tree(fs) && Dest(fs, dest, d) && HopToSpare(fs, dest)
    requires NameOk(x) && NameOk(f) && Plain([x]) && Plain([x, f])
    requires o in fs && fs[o] == Dir && !(d <= o) && d + [x] !in fs && o + [f] !in fs
    requires Affords(limits.maxBytes, |body|) && (limits.maxEntries <= 0 || limits.maxEntries >= 2)
    ensures var members := [Member(x, TypeSymlink, Spelled(o), []), Member(x + [SLASH] + f, TypeReg, "", body)];
            var r := ExtractFrom(Progress(fs, 0, limits.maxBytes, true), members, 0, dest, overwrite,
                                 limits.maxEntries);
            && r.ok && r.written == 2 && r.fs == fs[d + [x] := Link(Spelled(o))][o + [f] := File(body)]
            && !OnlyBelow(fs, r.fs, d)
  {
    hide *;
    var link, file := Member(x, TypeSymlink, Spelled(o), []), Member(x + [SLASH] + f, TypeReg, "", body);
    var next := fs[d + [x] := Link(Spelled(o))];
    PlaceElsewhere(fs, d, x, o, f);
    Outside(fs, d, x, Link(Spelled(o)), o + [f], File(body));
    PlantLink(fs, dest, d, x, Spelled(o), overwrite, limits);
    assert o in next && next[o] == Dir && o + [f] !in next;
    FileLands(next, dest, d, x, o, f, body, overwrite, limits);
    TwoMembers(Progress(fs, 0, limits.maxBytes, true), link, file, dest, overwrite, limits.maxEntries);
  }

  lemma {:induction false} PairItem(x: string, f: string, body: seq<int>)
    requires NameOk(x) && NameOk(f)
    ensures var item := Item([x, f], File(body));
            && MemberOf(item) == Member(x + [SLASH] + f, TypeReg, "", body) && item.rel != []
            && NamesOk(item.rel) && item.rel[|item.rel| - 1] == f
  {
    hide NameOk;
    assert [x, f][1..] == [f] && Join([f], SLASH) == f;
    assert Join([x, f], SLASH) == x + [SLASH] + f;
    forall c | c in [x, f] ensures NameOk(c) {
    }
  }

  /** The second member, once the link is there. */
  lemma {:induction false} FileLands(fs: FS, dest: string, d: Path, x: string, o: Path, f: string, body: seq<int>,
                                     overwrite: bool, limits: Limits)
    requires Tree(fs) && Dest(fs, dest, d) && HopToSpare(fs, dest) && NameOk(x) && NameOk(f) && Plain([x, f])
    requires d + [x] in fs && fs[d + [x]] == Link(Spelled(o)) && o in fs && fs[o] == Dir && o + [f] !in fs
    requires Affords(limits.maxBytes, |body|) && (limits.maxEntries <= 0 || limits.maxEntries >= 2)
    ensures Advance(Progress(fs, 1, limits.maxBytes, true), Member(x + [SLASH] + f, TypeReg, "", body), dest,
                    overwrite, limits.maxEntries)
            == Progress(fs[o + [f] := File(body)], 2, Spend(limits.maxBytes, |body|), true)
  {
    var item, m := Item([x, f], File(body)), Member(x + [SLASH] + f, TypeReg, "", body);
    hide *;
    PairItem(x, f, body);
    DestParts(fs, dest, d);
    ThroughLink(fs, dest, d, x, f, o);
    WriteInto(fs, item, dest, o, overwrite, limits.maxBytes);
    MemberName(item);
    TargetIs(dest, item.rel);
    AdvanceTo(Progress(fs, 1, limits.maxBytes, true), m, dest, overwrite, limits.maxEntries, Join(item.rel, SLASH));
  }

  lemma {:induction false} TopThrough(fs: FS, dest: string, d: Path, x: string, t: Path)
    requires Tree(fs) && Dest(fs, dest, d) && HopToSpare(fs, dest) && NameOk(x) && NamesOk([x])
    requires d + [x] in fs && fs[d + [x]] == Link(Spelled(t)) && Solid(fs, t)
    ensures ResolvePath(fs, Target(dest, [x]), true) == Ok(t) && ParentLeads(fs, dest, [x])
  {
    DestParts(fs, dest, d);
    DestIsDir(fs, dest, d);
    TargetSplit(dest, [x]);
    TopParent(fs, dest, x);
    var raw := Components(dest);
    assert raw + [x][..0] == raw;
    hide Tree, Reached, Leads, Components, CleanDest, Dest, NameOk, Spelled, ResolvePath, Target, NamesOk, ParentLeads;
    LinkTo(fs, d, x, t, PlaceOf(fs, raw).hops);
    ResolveAgrees(fs, Target(dest, [x]), true);
    ReachedSplit(fs, [], raw, [x], true, 0, true);
  }

  /**
   With overwriting, a link `x` to a file `t` outside the destination, followed by a file of
   the same name, replaces the content of `t`.
   */
  lemma {:induction false} OverwriteFollows(fs: FS, dest: string, d: Path, x: string, t: Path, body: seq<int>,
                                            limits: Limits)
    requires Tree(fs) && Dest(fs, dest, d) && HopToSpare(fs, dest) && NameOk(x) && Plain([x]) && d + [x] !in fs
    requires t in fs && fs[t].File? && !(d < t) && fs[t] != File(body)
    requires Affords(limits.maxBytes, |body|) && (limits.maxEntries <= 0 || limits.maxEntries >= 2)
    ensures var members := [Member(x, TypeSymlink, Spelled(t), []), Member(x, TypeReg, "", body)];
            var r := ExtractFrom(Progress(fs, 0, limits.maxBytes, true), members, 0, dest, true, limits.maxEntries);
            && r.ok && r.written == 2 && r.fs == fs[d + [x] := Link(Spelled(t))][t := File(body)]
            && !OnlyBelow(fs, r.fs, d)
  {
    var item, m := Item([x], File(body)), Member(x, TypeReg, "", body);
    assert MemberOf(item) == m && NamesOk([x]) && item.rel != [];
    var link := Member(x, TypeSymlink, Spelled(t), []);
    var p := Progress(fs, 0, limits.maxBytes, true);
    var next := fs[d + [x] := Link(Spelled(t))];
    assert Solid(next, t) && next[t].File?;
    hide *;
    Outside(fs, d, x, Link(Spelled(t)), t, File(body));
    PlantLink(fs, dest, d, x, Spelled(t), true, limits);
    TopThrough(next, dest, d, x, t);
    ParentMember(next, dest, [x]);
    SpecialTakes(next, Target(dest, [x]), t, body, limits.maxBytes);
    FileIsWritten(next, m, Target(dest, [x]), true, limits.maxBytes);
    MemberName(item);
    TargetIs(dest, [x]);
    AdvanceTo(Progress(next, 1, limits.maxBytes, true), m, dest, true, limits.maxEntries, Join([x], SLASH));
    TwoMembers(p, link, m, dest, true, limits.maxEntries);
  }

  lemma {:induction false} FileIsWritten(fs: FS, m: Member, target: string, overwrite: bool, budget: int)
    requires Tree(fs) && m.kind == TypeReg
    ensures WriteMember(fs, m, target, overwrite, budget) == WriteFile(fs, target, m.body, overwrite, budget)
  {
    hide Tree, WriteFile;
  }

  // ----- a destination whose cleaned spelling passes through itself

  /**
   `/a/../m` is `/c/m`, a link to `/d`; the cleaned spelling `/m` is a link that reaches `/d`
   by going into `/d/s` and back.
   */
  ghost predicate Skew(fs: FS, a: string, c: string, d: string, e: string, m: string, s: string)
  {
    && Tree(fs) && [c] in fs && fs[[c]] == Dir && [d] in fs && fs[[d]] == Dir && [c, e] in fs && fs[[c, e]] == Dir
    && [a] in fs && fs[[a]] == Link(Spelled([c, e])) && [c, m] in fs && fs[[c, m]] == Link(Spelled([d]))
    && [m] in fs && fs[[m]] == Link(Spelled([d, s, ".."]))
    && NameOk(a) && NameOk(c) && NameOk(d) && NameOk(e) && NameOk(m) && NameOk(s)
  }

  lemma {:induction false} SkewNames(a: string, d: string, m: string, s: string)
    requires NameOk(a) && NameOk(d) && NameOk(m) && NameOk(s)
    ensures var dest := Spelled([a, "..", m]);
            && NUL !in dest && Components(dest) == [a, "..", m] && CleanDest(dest) == [m] && StepsOk([d, s, ".."])
  {
    SpelledComponents([a, "..", m]);
    hide Components, NameOk, Spelled;
    assert [a, "..", m][1..] == ["..", m] && ["..", m][1..] == [m] && [m][1..] == [] && [a][..0] == [];
    assert [] + [a] == [a] && [] + [m] == [m];
    assert Lexical(true, ["..", m], [a]) == Lexical(true, [m], []);
    assert Lexical(true, [m], []) == [m];
  }

  lemma {:induction false} SkewSteps(a: string, c: string, d: string, e: string, m: string, s: string)
    ensures [] + [a] == [a] && [] + [m] == [m] && [] + [d] == [d] && [c] + [m] == [c, m] && [d] + [s] == [d, s]
    ensures [a] + [".."] == [a, ".."] && [a, ".."] + [m] == [a, "..", m]
    ensures [d] + [s, ".."] == [d, s, ".."] && [s] + [".."] == [s, ".."] && Pop([c, e]) == [c] && Pop([d, s]) == [d]
  {
  }

  lemma {:induction false} SkewParts(fs: FS, a: string, c: string, d: string, e: string, m: string, s: string)
    requires Skew(fs, a, c, d, e, m, s)
    ensures Tree(fs) && [] in fs && fs[[]] == Dir && Solid(fs, []) && Solid(fs, [c, e]) && Solid(fs, [d])
    ensures [c] in fs && fs[[c]] == Dir && [d] in fs && fs[[d]] == Dir && [c, e] in fs && fs[[c, e]] == Dir
    ensures [a] in fs && fs[[a]] == Link(Spelled([c, e])) && [c, m] in fs && fs[[c, m]] == Link(Spelled([d]))
    ensures [m] in fs && fs[[m]] == Link(Spelled([d, s, ".."])) && 3 < MAX_SYMLINKS
    ensures NameOk(a) && NameOk(c) && NameOk(d) && NameOk(e) && NameOk(m) && NameOk(s)
  {
    hide Spelled, NameOk;
  }

  lemma {:induction false} UpReached(fs: FS, dir: Path, hops: nat)
    requires Tree(fs) && Solid(fs, dir) && hops <= MAX_SYMLINKS
    ensures Reached(fs, dir, [".."], false, hops, true) == At(Pop(dir), hops)
  {
    hide Tree;
    PopSolid(fs, dir);
    assert [".."][1..] == [];
  }

  /** As written, the destination avoids what is in it. */
  lemma {:induction false} SkewRaw(fs: FS, a: string, c: string, d: string, e: string, m: string, s: string)
    requires Skew(fs, a, c, d, e, m, s)
    ensures RawDest(fs, Spelled([a, "..", m]), [d])
  {
    hide Tree, Skew, Solid, Reached, Components, Leads, PlaceOf, Spelled, NameOk, CleanDest;
    SkewParts(fs, a, c, d, e, m, s);
    SkewNames(a, d, m, s);
    SkewSteps(a, c, d, e, m, s);
    RootLeads(fs);
    LinkTo(fs, [], a, [c, e], 0);
    LeadsThrough(fs, [], a, [c, e], 1);
    UpReached(fs, [c, e], 1);
    LeadsThrough(fs, [a], "..", [c], 1);
    LinkTo(fs, [c], m, [d], 1);
    LeadsThrough(fs, [a, ".."], m, [d], 2);
  }

  /** Where the cleaned spelling leads depends on `/d/s`. */
  lemma {:induction false} SkewClean(fs: FS, a: string, c: string, d: string, e: string, m: string, s: string, q: Path,
                                     hops: nat)
    requires Skew(fs, a, c, d, e, m, s) && q in fs && fs[q] == Dir && hops <= MAX_SYMLINKS
    requires Solid(fs, q) && Reached(fs, [d], [s], false, 1, true) == At(q, hops)
    requires Pop(q) in fs && fs[Pop(q)] == Dir
    ensures Leads(fs, [m]) && PlaceOf(fs, [m]) == At(Pop(q), hops)
  {
    hide *;
    SkewParts(fs, a, c, d, e, m, s);
    SkewNames(a, d, m, s);
    SkewSteps(a, c, d, e, m, s);
    RootLeads(fs);
    EntryReached(fs, [d], 1);
    UpReached(fs, q, hops);
    ReachedSplit(fs, [d], [s], [".."], false, 1, true);
    ReachedSplit(fs, [], [d], [s, ".."], false, 1, true);
    LinkGoes(fs, [], m, [d, s, ".."], 0, At(Pop(q), hops));
    LeadsThrough(fs, [], m, Pop(q), hops);
  }

  lemma {:induction false} LinkReplaced(fs: FS, target: string, place: Path, link: string)
    requires Tree(fs) && MakeParent(fs, target) == Effect(fs, true) && place in fs && place != [] && Leaf(fs, place)
    requires Tree(fs - {place}) && ResolvePath(fs, target, false) == Ok(place)
    requires ResolvePath(fs - {place}, target, false) == Ok(place)
    requires CreateAt(fs - {place}, place, Link(link)) == Effect((fs - {place})[place := Link(link)], true)
    ensures WriteSymlink(fs, target, link, true) == Effect(fs[place := Link(link)], true)
  {
    hide Tree, MakeParent, ResolvePath, CreateAt;
    assert (fs - {place})[place := Link(link)] == fs[place := Link(link)];
  }

  /** Nothing but the empty directory `/d/s` is in `/d`. */
  ghost predicate SkewStart(fs: FS, a: string, c: string, d: string, e: string, m: string, s: string)
  {
    && Skew(fs, a, c, d, e, m, s) && [d, s] in fs && fs[[d, s]] == Dir
    && (forall p | p in fs && [d] < p :: p == [d, s])
  }

  lemma {:induction false} SkewStartDest(fs: FS, a: string, c: string, d: string, e: string, m: string, s: string)
    requires SkewStart(fs, a, c, d, e, m, s)
    ensures Dest(fs, Spelled([a, "..", m]), [d]) && LinkFree(fs, [d]) && Leaf(fs, [d, s])
  {
    assert [d] + [s] == [d, s] && [d] < [d, s] && Pop([d, s]) == [d];
    SkewParts(fs, a, c, d, e, m, s);
    SkewNames(a, d, m, s);
    SkewRaw(fs, a, c, d, e, m, s);
    hide Tree, Skew, Reached, Components, Leads, PlaceOf, Spelled, NameOk, CleanDest, RawDest;
    ReachedSolid(fs, [d], s, 1);
    SkewClean(fs, a, c, d, e, m, s, [d, s], 1);
  }

  /** The directory `/d/s` is none of the entries that matter. */
  lemma {:induction false} SkewApart(fs: FS, a: string, c: string, d: string, e: string, m: string, s: string)
    requires SkewStart(fs, a, c, d, e, m, s)
    ensures [d, s] != [c, e] && [d, s] != [c, m]
    ensures [d, s] != [c] && [d, s] != [d] && [d, s] != [a] && [d, s] != [m] && [d, s] != []
  {
    hide Tree, Spelled, NameOk;
    assert [d] < [d, e] && [d] < [d, m];
  }

  lemma {:induction false} SkewKept(fs: FS, next: FS, a: string, c: string, d: string, e: string, m: string, s: string)
    requires SkewStart(fs, a, c, d, e, m, s) && Tree(next)
    requires forall p | p in fs && p != [d, s] :: p in next && next[p] == fs[p]
    ensures Skew(next, a, c, d, e, m, s)
  {
    hide Tree, Spelled, NameOk;
    SkewApart(fs, a, c, d, e, m, s);
  }

  lemma {:induction false} HousedTop(fs: FS, d: Path, s: string)
    requires d in fs && fs[d] == Dir && NameOk(s)
    ensures Housed(fs, d, [s])
  {
    hide NameOk;
    assert d + [s][..0] == d;
  }

  lemma {:induction false} PutBack(fs: FS, p: Path, node: Node)
    requires p in fs
    ensures (fs - {p})[p := node] == fs[p := node] && p !in fs - {p}
    ensures forall q | q in fs && q != p :: q in fs - {p} && (fs - {p})[q] == fs[q]
    ensures forall q | q in fs && q != p :: q in fs[p := node] && fs[p := node][q] == fs[q]
  {
  }

  lemma {:induction false} LeafGoes(fs: FS, p: Path)
    requires Tree(fs) && p != [] && p in fs && Leaf(fs, p)
    ensures Tree(fs - {p})
  {
    hide Tree;
    RemoveKeepsTree(fs, p);
  }

  lemma {:induction false} SkewGone(fs: FS, a: string, c: string, d: string, e: string, m: string, s: string,
                                    link: string)
    requires SkewStart(fs, a, c, d, e, m, s) && Leaf(fs, [d, s]) && [d, s] in fs && Skew(fs, a, c, d, e, m, s)
    ensures var gone, next := fs - {[d, s]}, fs[[d, s] := Link(link)];
            && Skew(gone, a, c, d, e, m, s) && Housed(gone, [d], [s]) && Housed(fs, [d], [s]) && NameOk(s)
            && CreateAt(gone, [d, s], Link(link)) == Effect(gone[[d, s] := Link(link)], true)
            && gone[[d, s] := Link(link)] == next && Skew(next, a, c, d, e, m, s)
  {
    hide *;
    var gone := fs - {[d, s]};
    assert [d] + [s] == [d, s];
    PutBack(fs, [d, s], Link(link));
    SkewParts(fs, a, c, d, e, m, s);
    LeafGoes(fs, [d, s]);
    SkewKept(fs, gone, a, c, d, e, m, s);
    SkewParts(gone, a, c, d, e, m, s);
    HousedTop(fs, [d], s);
    HousedTop(gone, [d], s);
    CreateInto(gone, [d], s, Link(link));
    SkewKept(fs, fs[[d, s] := Link(link)], a, c, d, e, m, s);
  }

  /** The link `s` takes the place of the directory `s`, through the destination as written. */
  lemma {:induction false} SkewFirst(fs: FS, a: string, c: string, d: string, e: string, m: string, s: string,
                                     link: string)
    requires SkewStart(fs, a, c, d, e, m, s)
    ensures Tree(fs) && NUL !in Spelled([a, "..", m]) && NamesOk([s])
    ensures WriteSymlink(fs, Target(Spelled([a, "..", m]), [s]), link, true) == Effect(fs[[d, s] := Link(link)], true)
  {
    assert Skew(fs, a, c, d, e, m, s) && NameOk(s) && NamesOk([s]) && [d, s] in fs;
    hide *;
    var dest := Spelled([a, "..", m]);
    SkewParts(fs, a, c, d, e, m, s);
    SkewNames(a, d, m, s);
    SkewSteps(a, c, d, e, m, s);
    SkewStartDest(fs, a, c, d, e, m, s);
    SkewGone(fs, a, c, d, e, m, s, link);
    var gone := fs - {[d, s]};
    SkewParts(gone, a, c, d, e, m, s);
    DestParts(fs, dest, [d]);
    TopParent(fs, dest, s);
    ParentMember(fs, dest, [s]);
    DestIsRaw(fs, dest, [d]);
    SkewRaw(gone, a, c, d, e, m, s);
    ResolveMember(fs, dest, [d], [s], false);
    ResolveMember(gone, dest, [d], [s], false);
    LinkReplaced(fs, Target(dest, [s]), [d, s], link);
  }

  /** After that the cleaned spelling leads to `/c`, so the parent of `x/f` is made there. */
  lemma {:induction false} SkewSecond(fs: FS, a: string, c: string, d: string, e: string, m: string, s: string,
                                      x: string, f: string)
    requires Skew(fs, a, c, d, e, m, s) && [d, s] in fs && fs[[d, s]] == Link(Spelled([c, e])) && [c, x] !in fs
    requires NameOk(x) && NameOk(f)
    ensures MakeParent(fs, Target(Spelled([a, "..", m]), [x, f])) == Effect(fs[[c, x] := Dir], true)
  {
    hide *;
    var dest := Spelled([a, "..", m]);
    SkewParts(fs, a, c, d, e, m, s);
    SkewNames(a, d, m, s);
    SkewSteps(a, c, d, e, m, s);
    LinkTo(fs, [d], s, [c, e], 1);
    SkewClean(fs, a, c, d, e, m, s, [c, e], 2);
    assert [c] + [x] == [c, x];
    ParentAt(fs, dest, m, [c], x, f);
  }

  /** The parent of `x/f` is made where the cleaned spelling leads. */
  lemma {:induction false} ParentAt(fs: FS, dest: string, m: string, q: Path, x: string, f: string)
    requires Tree(fs) && NUL !in dest && CleanDest(dest) == [m] && NameOk(m) && NameOk(x) && NameOk(f)
    requires Leads(fs, [m]) && PlaceOf(fs, [m]).At? && PlaceOf(fs, [m]).path == q && q + [x] !in fs
    ensures MakeParent(fs, Target(dest, [x, f])) == Effect(fs[q + [x] := Dir], true)
  {
    hide *;
    PairPath(x, f);
    PairPath(m, x);
    ParentIs(fs, dest, [x, f]);
    MkdirFromLast(fs, [m], x, 0);
  }

  lemma {:induction false} PairPath(x: string, f: string)
    requires NameOk(x) && NameOk(f)
    ensures NamesOk([x, f]) && [x, f][..|[x, f]| - 1] == [x] && [x] + [f] == [x, f] && StepsOk([x])
  {
    hide NameOk;
  }

  lemma {:induction false} AdvanceFs(p: Progress, m: Member, dest: string, overwrite: bool, maxEntries: int,
                                     name: string)
    requires Tree(p.fs) && SafeName(m.name) == Name(name) && (maxEntries <= 0 || p.written < maxEntries)
    ensures Advance(p, m, dest, overwrite, maxEntries).fs
            == WriteMember(p.fs, m, JoinPath(dest, name), overwrite, p.budget).fs
  {
    hide Tree, SafeName, WriteMember, JoinPath;
  }

  lemma {:induction false} BelowItem(item: Item)
    requires item.rel != [] && NamesOk(item.rel) && Plain(item.rel) && !item.node.Special?
    ensures Below(MemberOf(item)) == item.rel
  {
    hide SafeName, MemberOf, Components, NamesOk, Plain, Join;
    MemberName(item);
    NamesAreSteps(item.rel);
    ComponentsJoin(item.rel);
  }

  lemma {:induction false} SkewUncrossed(s: string, x: string, f: string, target: string, body: seq<int>)
    requires NameOk(s) && NameOk(x) && NameOk(f) && Plain([s]) && Plain([x, f]) && s != x
    ensures Uncrossed([Member(s, TypeSymlink, target, []), Member(x + [SLASH] + f, TypeReg, "", body)], true)
  {
    var link, file := Item([s], Link(target)), Item([x, f], File(body));
    assert MemberOf(link) == Member(s, TypeSymlink, target, []) && NamesOk([s]);
    hide Below, MemberOf, NamesOk, Plain, NameOk;
    PairItem(x, f, body);
    BelowItem(link);
    BelowItem(file);
    assert !([s] < [x, f]) && [s] != [x, f];
  }

  /**
   With overwriting it is not enough that both spellings lead to the destination: here the
   archive holds no member that goes through a link of its own and there is no link in
   `/d`, but replacing `/d/s` by a link turns the cleaned spelling away, and the parent of
   the next member is made in `/c`.
   */
  lemma {:induction false} SkewEscapes(fs: FS, a: string, c: string, d: string, e: string, m: string, s: string,
                                       x: string, f: string, body: seq<int>, limits: Limits)
    requires SkewStart(fs, a, c, d, e, m, s) && [c, x] !in fs && s != x && c != d
    requires NameOk(x) && NameOk(f) && Plain([s]) && Plain([x, f])
    requires limits.maxEntries <= 0 || limits.maxEntries >= 2
    ensures var dest := Spelled([a, "..", m]);
            var members := [Member(s, TypeSymlink, Spelled([c, e]), []), Member(x + [SLASH] + f, TypeReg, "", body)];
            && Tree(fs) && Dest(fs, dest, [d]) && LinkFree(fs, [d]) && Uncrossed(members, true)
            && !OnlyBelow(fs, ExtractFrom(Progress(fs, 0, limits.maxBytes, true), members, 0, dest, true,
                                          limits.maxEntries).fs, [d])
  {
    var dest, target := Spelled([a, "..", m]), Spelled([c, e]);
    var item, pair := Item([s], Link(target)), Item([x, f], File(body));
    var link, file := Member(s, TypeSymlink, target, []), Member(x + [SLASH] + f, TypeReg, "", body);
    assert Skew(fs, a, c, d, e, m, s) && [d, s] in fs;
    assert MemberOf(item) == link && NameOk(s) && item.rel != [] && [c, x] != [d, s] && !([d] < [c, x]);
    var p := Progress(fs, 0, limits.maxBytes, true);
    var next := fs[[d, s] := Link(target)];
    SkewUncrossed(s, x, f, target, body);
    hide *;
    SkewStartDest(fs, a, c, d, e, m, s);
    SkewFirst(fs, a, c, d, e, m, s, target);
    SkewGone(fs, a, c, d, e, m, s, target);
    LinkIsWritten(fs, link, Target(dest, [s]), true, p.budget);
    MemberName(item);
    TargetIs(dest, [s]);
    AdvanceTo(p, link, dest, true, limits.maxEntries, Join([s], SLASH));
    SkewSecond(next, a, c, d, e, m, s, x, f);
    PairItem(x, f, body);
    MemberName(pair);
    TargetIs(dest, [x, f]);
    FileIsWritten(next, file, Target(dest, [x, f]), true, p.budget);
    AdvanceFs(Progress(next, 1, p.budget, true), file, dest, true, limits.maxEntries, Join([x, f], SLASH));
    WriteFileKeys(next, Target(dest, [x, f]), body, true, p.budget, [c, x]);
    TwoMembers(p, link, file, dest, true, limits.maxEntries);
    NewOutside(fs, ExtractFrom(p, [link, file], 0, dest, true, limits.maxEntries).fs, [d], [c, x]);
  }

  lemma {:induction false} NewOutside(fs: FS, next: FS, d: Path, p: Path)
    requires p !in fs && p in next && !(d < p)
    ensures !OnlyBelow(fs, next, d)
  {
  }

  lemma {:induction false} LinkIsWritten(fs: FS, m: Member, target: string, overwrite: bool, budget: int)
    requires Tree(fs) && m.kind == TypeSymlink
    ensures var w := WriteSymlink(fs, target, m.link, overwrite);
            WriteMember(fs, m, target, overwrite, budget) == Wrote(w.fs, budget, w.ok)
  {
    hide Tree, WriteSymlink;
  }

  /** Such a filesystem. */
  ghost function Skewed(a: string, c: string, d: string, e: string, m: string, s: string): (fs: FS)
  {
    map[[] := Dir][[c] := Dir][[d] := Dir][[a] := Link(Spelled([c, e]))][[m] := Link(Spelled([d, s, ".."]))]
       [[c, e] := Dir][[c, m] := Link(Spelled([d]))][[d, s] := Dir]
  }

  ghost predicate SixNames(a: string, c: string, d: string, e: string, m: string, s: string)
  {
    && NameOk(a) && NameOk(c) && NameOk(d) && NameOk(e) && NameOk(m) && NameOk(s)
    && a != c && a != d && a != m && c != d && c != m && d != m && e != m
  }

  lemma {:induction false} SkewedTree(a: string, c: string, d: string, e: string, m: string, s: string)
    requires SixNames(a, c, d, e, m, s)
    ensures Tree(Skewed(a, c, d, e, m, s))
  {
    hide Tree, NameOk, Spelled;
    OnlyRoot();
    assert [] + [c] == [c] && [] + [d] == [d] && [] + [a] == [a] && [] + [m] == [m];
    assert [c] + [e] == [c, e] && [c] + [m] == [c, m] && [d] + [s] == [d, s];
    var none: FS := map[[] := Dir];
    Grow(none, [], c, Dir);
    var one := none[[c] := Dir];
    Grow(one, [], d, Dir);
    var two := one[[d] := Dir];
    Grow(two, [], a, Link(Spelled([c, e])));
    var three := two[[a] := Link(Spelled([c, e]))];
    Grow(three, [], m, Link(Spelled([d, s, ".."])));
    var four := three[[m] := Link(Spelled([d, s, ".."]))];
    Grow(four, [c], e, Dir);
    var five := four[[c, e] := Dir];
    Grow(five, [c], m, Link(Spelled([d])));
    var six := five[[c, m] := Link(Spelled([d]))];
    Grow(six, [d], s, Dir);
  }

  /** There are such filesystems. */
  lemma {:induction false} SkewedStarts(a: string, c: string, d: string, e: string, m: string, s: string, x: string)
    requires SixNames(a, c, d, e, m, s) && x != e && x != m
    ensures SkewStart(Skewed(a, c, d, e, m, s), a, c, d, e, m, s) && [c, x] !in Skewed(a, c, d, e, m, s)
  {
    hide Tree, NameOk, Spelled;
    SkewedTree(a, c, d, e, m, s);
    var fs := Skewed(a, c, d, e, m, s);
    forall p | p in fs && [d] < p ensures p == [d, s] {
      assert p[0] == d;
    }
  }
}
