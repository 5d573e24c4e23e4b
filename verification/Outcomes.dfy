/**
 What success and failure of unpacking mean: a member that was written is there, with all
 its bytes; and the limits refuse exactly what exceeds them.
 */
module Outcomes {
  import opened Text
  import opened Paths
  import opened RootFs
  import opened FileOps
  import opened Reaching
  import opened Extract
  import opened Rebuild

  // ----- a place that was written is found again

  /** Nothing differs but the entry at `place`, which is new, or is a file with another content. */
  ghost predicate Alike(fs: FS, next: FS, place: Path)
  {
    && (forall p | p != place && (p in fs || p in next) :: p in fs && p in next && next[p] == fs[p])
    && place in next && (place in fs ==> fs[place].File? && next[place].File?)
  }

  lemma {:induction false} ReachedAlike(fs: FS, next: FS, place: Path, dir: Path, steps: seq<string>, last: bool,
                                        hops: nat, follow: bool)
    requires Tree(fs) && Tree(next) && Alike(fs, next, place) && Solid(fs, dir) && hops <= MAX_SYMLINKS
    requires Reached(fs, dir, steps, last, hops, follow).At? && (next[place].Link? ==> !(last && follow))
    ensures Solid(next, dir)
    ensures Reached(next, dir, steps, last, hops, follow) == Reached(fs, dir, steps, last, hops, follow)
    decreases MAX_SYMLINKS - hops, |steps|
  {
    hide Components, TrimLeft, Tree;
    if steps != [] {
      var step, rest := steps[0], steps[1..];
      if step == ".." {
        PopSolid(fs, dir);
        ReachedAlike(fs, next, place, Pop(dir), rest, last, hops, follow);
      } else {
        var info := Lstat(fs, dir, step);
        if info.Found? && !(rest == [] && (!info.node.Link? || (last && !follow))) {
          assert Lstat(next, dir, step) == info || (info.node.File? && Lstat(next, dir, step).node.File?);
          if !info.node.Link? {
            ReachedAlike(fs, next, place, dir + [step], rest, last, hops, follow);
          } else {
            RootIsSolid(fs);
            LinkAlike(fs, next, place, dir, info.node.target, rest, last, hops, follow);
          }
        }
      }
    }
  }

  lemma {:induction false} LinkAlike(fs: FS, next: FS, place: Path, dir: Path, target: string, rest: seq<string>,
                                     last: bool, hops: nat, follow: bool)
    requires Tree(fs) && Tree(next) && Alike(fs, next, place) && Solid(fs, dir) && hops < MAX_SYMLINKS
    requires Solid(fs, LinkBase(target, dir)) && (next[place].Link? ==> !(last && follow))
    requires var link := Reached(fs, LinkBase(target, dir), Components(TrimLeft(target)), last && rest == [], hops + 1,
                                 follow);
             link.At? && (rest != [] ==> Reached(fs, link.path, rest, last, link.hops, follow).At?)
    ensures Solid(next, LinkBase(target, dir))
    ensures var base, steps := LinkBase(target, dir), Components(TrimLeft(target));
            var link := Reached(fs, base, steps, last && rest == [], hops + 1, follow);
            && Reached(next, base, steps, last && rest == [], hops + 1, follow) == link
            && (rest != [] ==>
                  && Solid(next, link.path)
                  && Reached(next, link.path, rest, last, link.hops, follow)
                     == Reached(fs, link.path, rest, last, link.hops, follow))
    decreases MAX_SYMLINKS - hops - 1, |Components(TrimLeft(target))| + |rest| + 1
  {
    hide Reached, Components, TrimLeft, Tree, Alike;
    var base, steps := LinkBase(target, dir), Components(TrimLeft(target));
    var link := Reached(fs, base, steps, last && rest == [], hops + 1, follow);
    ReachedAlike(fs, next, place, base, steps, last && rest == [], hops + 1, follow);
    if rest != [] {
      ReachedAlike(fs, next, place, link.path, rest, last, link.hops, follow);
    }
  }

  lemma {:induction false} ResolveAlike(fs: FS, next: FS, target: string, place: Path, follow: bool)
    requires Tree(fs) && Tree(next) && Alike(fs, next, place) && (next[place].Link? ==> !follow)
    requires ResolvePath(fs, target, follow) == Ok(place)
    ensures ResolvePath(next, target, follow) == Ok(place)
  {
    hide Reached, Components, Tree, Alike;
    assert NUL !in target;
    RootIsSolid(fs);
    ResolveAgrees(fs, target, follow);
    ResolveAgrees(next, target, follow);
    ReachedAlike(fs, next, place, [], Components(target), true, 0, follow);
  }

  // ----- a member that was written is there

  /** The directory exists, the link has its target, the file all its bytes, which a special file does not keep. */
  ghost predicate There(fs: FS, m: Member, target: string)
    requires Tree(fs)
  {
    match m.kind
    case TypeDir =>
      var r := ResolvePath(fs, target, true);
      r.Ok? && r.path in fs && fs[r.path] == Dir
    case TypeSymlink =>
      var r := ResolvePath(fs, target, false);
      r.Ok? && r.path in fs && fs[r.path] == Link(m.link)
    case TypeReg =>
      var r := ResolvePath(fs, target, true);
      r.Ok? && r.path in fs && (fs[r.path] == File(m.body) || fs[r.path] == Special)
    case TypeOther => true
  }

  lemma {:induction false} AlikeNew(fs: FS, place: Path, node: Node)
    requires place !in fs
    ensures Alike(fs, fs[place := node], place)
  {
  }

  lemma {:induction false} AlikeFile(fs: FS, place: Path, body: seq<int>)
    requires place in fs ==> fs[place].File?
    ensures Alike(fs, fs[place := File(body)], place)
  {
  }

  lemma {:induction false} CreatedAt(fs: FS, place: Path, node: Node)
    requires Tree(fs) && CreateAt(fs, place, node).ok
    ensures place !in fs && CreateAt(fs, place, node).fs == fs[place := node]
  {
    hide Tree;
  }

  lemma {:induction false} OpenedThere(fs: FS, target: string, body: seq<int>)
    requires Tree(fs) && OpenWrite(fs, target).ok
    ensures var handle := OpenWrite(fs, target);
            There(Fill(handle.fs, handle.place, body), Member("", TypeReg, "", body), target)
  {
    hide Tree, ResolvePath, CreateAt, Alike;
    var handle := OpenWrite(fs, target);
    var place, next := handle.place, Fill(handle.fs, handle.place, body);
    if place !in fs {
      CreatedAt(fs, place, File([]));
      assert next == fs[place := File(body)];
      AlikeFile(fs, place, body);
      ResolveAlike(fs, next, target, place, true);
    } else if fs[place].File? {
      AlikeFile(fs, place, body);
      ResolveAlike(fs, next, target, place, true);
    }
  }

  lemma {:induction false} FileThere(fs: FS, m: Member, target: string, overwrite: bool, budget: int)
    requires Tree(fs) && m.kind == TypeReg && WriteFile(fs, target, m.body, overwrite, budget).ok
    ensures There(WriteFile(fs, target, m.body, overwrite, budget).fs, m, target)
  {
    hide Tree, ResolvePath, MakeParent, LstatOk, OpenWrite, Fill;
    OpenedThere(MakeParent(fs, target).fs, target, m.body);
  }

  lemma {:induction false} LinkedThere(fs: FS, link: string, target: string)
    requires Tree(fs) && Symlink(fs, link, target).ok
    ensures There(Symlink(fs, link, target).fs, Member("", TypeSymlink, link, []), target)
  {
    hide Tree, ResolvePath, CreateAt, Alike;
    var place := ResolvePath(fs, target, false).path;
    CreatedAt(fs, place, Link(link));
    AlikeNew(fs, place, Link(link));
    ResolveAlike(fs, fs[place := Link(link)], target, place, false);
  }

  lemma {:induction false} LinkThere(fs: FS, m: Member, target: string, overwrite: bool)
    requires Tree(fs) && m.kind == TypeSymlink && WriteSymlink(fs, target, m.link, overwrite).ok
    ensures There(WriteSymlink(fs, target, m.link, overwrite).fs, m, target)
  {
    hide Tree, ResolvePath, MakeParent, LstatOk, Symlink, Remove;
    var made := MakeParent(fs, target).fs;
    if LstatOk(made, target) {
      LinkedThere(Remove(made, target).fs, m.link, target);
    } else {
      LinkedThere(made, m.link, target);
    }
  }

  lemma {:induction false} DirThere(fs: FS, target: string)
    requires Tree(fs) && MkdirAll(fs, target).ok
    ensures StatIsDir(MkdirAll(fs, target).fs, target)
  {
    hide *;
    var next := MkdirAll(fs, target).fs;
    CleanNul(fs, target);
    MkdirAllParts(fs, target);
    var parts := Components(target);
    ComponentsSteps(target);
    StartLeads(fs, parts);
    MkdirFromMakes(fs, parts, 0);
    LeadsAt(next, parts, 0);
    StatIsDirAt(next, parts);
    SameComponents(next, target, parts);
  }

  lemma {:induction false} CleanNul(fs: FS, target: string)
    requires Tree(fs) && MkdirAll(fs, target).ok
    ensures NUL !in target
  {
    hide Tree, MkdirFrom;
  }

  lemma {:induction false} StartLeads(fs: FS, parts: seq<string>)
    requires Tree(fs)
    ensures LeadsTo(fs, parts, 0)
  {
    assert parts[..0] == [];
    RootIsSolid(fs);
    assert Reached(fs, [], [], false, 0, true) == At([], 0);
  }

  /** Two path strings with the same components name the same place. */
  lemma {:induction false} SameComponents(fs: FS, p: string, parts: seq<string>)
    requires Tree(fs) && NUL !in p && parts == Components(p) && StepsOk(parts)
    ensures StatIsDir(fs, p) == StatIsDir(fs, Spelled(parts))
  {
    hide Tree, Walk, Components, Spelled;
    SpelledComponents(parts);
    ResolveComponents(fs, p, true);
    ResolveComponents(fs, Spelled(parts), true);
  }

  /** What the report of one member means. */
  lemma {:induction false} MemberThere(fs: FS, m: Member, target: string, overwrite: bool, budget: int)
    requires Tree(fs) && WriteMember(fs, m, target, overwrite, budget).ok
    ensures There(WriteMember(fs, m, target, overwrite, budget).fs, m, target)
  {
    hide Tree, WriteFile, WriteSymlink, MkdirAll, ResolvePath;
    match m.kind {
      case TypeDir => DirThere(fs, target);
      case TypeSymlink => LinkThere(fs, m, target, overwrite);
      case TypeReg => FileThere(fs, m, target, overwrite, budget);
      case TypeOther =>
    }
  }

  /** Over a special file, as over a file, a member is written when overwriting; it keeps no bytes. */
  lemma {:induction false} SpecialTakes(fs: FS, target: string, place: Path, body: seq<int>, budget: int)
    requires Tree(fs) && Affords(budget, |body|) && MakeParent(fs, target) == Effect(fs, true)
    requires ResolvePath(fs, target, true) == Ok(place) && place in fs && (fs[place].File? || fs[place] == Special)
    ensures WriteFile(fs, target, body, true, budget)
            == Wrote(if fs[place] == Special then fs else fs[place := File(body)], Spend(budget, |body|), true)
  {
    hide Tree, MakeParent, ResolvePath, LstatOk;
  }

  // ----- every member of an archive that was unpacked

  /** The members that are unpacked: not those that name the destination, nor those of other kinds. */
  function Counted(members: seq<Member>): (n: nat)
    ensures n <= |members|
  {
    if members == [] then 0
    else (if SafeName(members[0].name).Name? && members[0].kind != TypeOther then 1 else 0) + Counted(members[1..])
  }

  /** Every member has a safe name and, when its turn comes, is there. */
  ghost predicate EachThere(p: Progress, members: seq<Member>, k: nat, dest: string, overwrite: bool, maxEntries: int)
    requires Tree(p.fs) && k <= |members|
    decreases |members| - k
  {
    k == |members| ||
    var next := Advance(p, members[k], dest, overwrite, maxEntries);
    && match SafeName(members[k].name) {
         case Refused => false
         case Here => next == p
         case Name(path) => There(next.fs, members[k], JoinPath(dest, path))
       }
    && EachThere(next, members, k + 1, dest, overwrite, maxEntries)
  }

  lemma {:induction false} AdvanceThere(p: Progress, m: Member, dest: string, overwrite: bool, maxEntries: int)
    requires Tree(p.fs) && p.ok && Advance(p, m, dest, overwrite, maxEntries).ok
    ensures var safe, next := SafeName(m.name), Advance(p, m, dest, overwrite, maxEntries);
            && !safe.Refused? && (safe.Here? ==> next == p)
            && (safe.Name? ==> There(next.fs, m, JoinPath(dest, safe.path)))
            && (safe.Name? && maxEntries > 0 ==> p.written < maxEntries)
            && next.written == p.written + if safe.Name? && m.kind != TypeOther then 1 else 0
  {
    hide Tree, SafeName, WriteMember, JoinPath, There;
    var safe := SafeName(m.name);
    if safe.Name? {
      MemberThere(p.fs, m, JoinPath(dest, safe.path), overwrite, p.budget);
    }
  }

  /**
   When unpacking any archive is reported to have succeeded, every member's name was safe and
   every member was, at its turn, there as the archive has it; the entries reported are the
   members that are not of other kinds, and no more than the limit.
   */
  lemma {:induction false} SuccessMeans(p: Progress, members: seq<Member>, k: nat, dest: string, overwrite: bool,
                                        maxEntries: int)
    requires Tree(p.fs) && k <= |members| && p.ok && ExtractFrom(p, members, k, dest, overwrite, maxEntries).ok
    ensures EachThere(p, members, k, dest, overwrite, maxEntries)
    ensures var n := ExtractFrom(p, members, k, dest, overwrite, maxEntries).written;
            n == p.written + Counted(members[k..]) && (maxEntries > 0 && p.written <= maxEntries ==> n <= maxEntries)
    decreases |members| - k
  {
    hide Tree, Advance, SafeName, JoinPath, There;
    if k < |members| {
      var next := Advance(p, members[k], dest, overwrite, maxEntries);
      AdvanceThere(p, members[k], dest, overwrite, maxEntries);
      assert members[k..][1..] == members[k + 1..] && members[k..][0] == members[k];
      SuccessMeans(next, members, k + 1, dest, overwrite, maxEntries);
    }
  }

  // ----- the limits, exactly

  /** The bytes of an entry that is a file. */
  function SizeOf(item: Item): (n: nat)
  {
    if item.node.File? then |item.node.bytes| else 0
  }

  /** The bytes of the entries before the `k`-th. */
  function Before(items: seq<Item>, k: nat): (n: nat)
    requires k <= |items|
  {
    if k == 0 then 0 else Before(items, k - 1) + SizeOf(items[k - 1])
  }

  /** The byte limit is none from the start, or was used up to the last byte, which reads as none. */
  ghost predicate Unlimited(items: seq<Item>, k: nat, budget: int)
    requires k <= |items|
  {
    budget <= 0 || exists j :: 0 <= j <= k && Before(items, j) == budget
  }

  /** The `k`-th entry is within the byte limit, of which the entries before it used their part. */
  ghost predicate Room(items: seq<Item>, k: nat, budget: int)
    requires k < |items|
  {
    if Unlimited(items, k, budget) then SizeOf(items[k]) <= 0x4000_0000_0000_0000
    else Before(items, k + 1) <= budget
  }

  /** Their number is within the limit, and each has room. */
  ghost predicate Admitted(items: seq<Item>, written: nat, budget: int, maxEntries: int)
  {
    && (maxEntries <= 0 || |Members(items)| == 0 || written + |Members(items)| <= maxEntries)
    && forall k | 0 <= k < |items| && items[k].node.File? :: Room(items, k, budget)
  }

  lemma {:induction false} BeforeRest(items: seq<Item>, k: nat)
    requires 0 < k <= |items|
    ensures Before(items, k) == SizeOf(items[0]) + Before(items[1..], k - 1)
  {
    if k > 1 {
      BeforeRest(items, k - 1);
    }
  }

  /** What is left of the limit after the first entry. */
  function Left(item: Item, budget: int): (r: int)
  {
    if item.node.File? then Spend(budget, |item.node.bytes|) else budget
  }

  lemma {:induction false} UnlimitedRest(items: seq<Item>, k: nat, budget: int)
    requires 0 < k <= |items| && (items[0].node.File? ==> Affords(budget, |items[0].node.bytes|))
    ensures Unlimited(items, k, budget) <==> Unlimited(items[1..], k - 1, Left(items[0], budget))
  {
    var rest, left := items[1..], Left(items[0], budget);
    forall j | 0 < j <= k ensures Before(items, j) == SizeOf(items[0]) + Before(rest, j - 1) {
      BeforeRest(items, j);
    }
    if budget > 0 {
      if j :| 0 <= j <= k && Before(items, j) == budget {
        assert Before(rest, j - 1) == left;
      }
      if left <= 0 {
        assert Before(rest, 0) == 0 && Before(items, 1) == budget;
      } else if j :| 0 <= j <= k - 1 && Before(rest, j) == left {
        assert Before(items, j + 1) == budget;
      }
    }
  }

  lemma {:induction false} RoomRest(items: seq<Item>, k: nat, budget: int)
    requires 0 < k < |items| && (items[0].node.File? ==> Affords(budget, |items[0].node.bytes|))
    ensures Room(items, k, budget) <==> Room(items[1..], k - 1, Left(items[0], budget))
  {
    hide Unlimited;
    UnlimitedRest(items, k, budget);
    BeforeRest(items, k + 1);
    UnlimitedSigns(items, k, budget);
  }

  lemma {:induction false} UnlimitedSigns(items: seq<Item>, k: nat, budget: int)
    requires k <= |items|
    ensures budget <= 0 ==> Unlimited(items, k, budget)
  {
  }

  /** The first entry has room exactly when it can be afforded. */
  lemma {:induction false} RoomFirst(items: seq<Item>, budget: int)
    requires items != [] && items[0].node.File?
    ensures Room(items, 0, budget) <==> Affords(budget, |items[0].node.bytes|)
  {
    assert Before(items, 0) == 0 && Before(items, 1) == SizeOf(items[0]);
    assert Unlimited(items, 0, budget) <==> budget <= 0;
  }

  lemma {:induction false} AdmittedRest(items: seq<Item>, written: nat, budget: int, maxEntries: int)
    requires items != []
    ensures var item, rest := items[0], items[1..];
            Admitted(items, written, budget, maxEntries)
            <==> if item.node.Special? then Admitted(rest, written, budget, maxEntries)
                 else
                   && (maxEntries <= 0 || written < maxEntries)
                   && (item.node.File? ==> Affords(budget, |item.node.bytes|))
                   && Admitted(rest, written + 1, Left(item, budget), maxEntries)
  {
    hide Room;
    var item, rest := items[0], items[1..];
    if item.node.File? {
      RoomFirst(items, budget);
    }
    if item.node.File? ==> Affords(budget, |item.node.bytes|) {
      forall k | 0 < k < |items| ensures Room(items, k, budget) <==> Room(rest, k - 1, Left(item, budget)) {
        RoomRest(items, k, budget);
      }
      assert forall k | 0 <= k < |rest| :: rest[k] == items[k + 1];
      RoomShift(items, budget);
    }
  }

  lemma {:induction false} RoomShift(items: seq<Item>, budget: int)
    requires items != []
    requires forall k | 0 < k < |items| :: Room(items, k, budget) <==> Room(items[1..], k - 1, Left(items[0], budget))
    ensures (forall k | 0 <= k < |items| && items[k].node.File? :: Room(items, k, budget))
            <==> && (items[0].node.File? ==> Room(items, 0, budget))
                 && forall k | 0 <= k < |items[1..]| && items[1..][k].node.File? ::
                      Room(items[1..], k, Left(items[0], budget))
  {
    hide Room;
    var rest, left := items[1..], Left(items[0], budget);
    forall k | 0 <= k < |rest| ensures Room(items, k + 1, budget) <==> Room(rest, k, left) {
    }
  }

  /** How many bytes a file that is too long gets before it is noticed: one more than allowed. */
  function Cut(budget: int): (n: nat)
  {
    if budget > 0 then budget + 1 else 0x4000_0000_0000_0001
  }

  lemma {:induction false} FileOver(fs: FS, dest: string, d: Path, rel: Path, body: seq<int>, overwrite: bool,
                                    budget: int)
    requires Tree(fs) && RawDest(fs, dest, d) && Rooted(fs, d, rel) && ParentLeads(fs, dest, rel)
    requires !Affords(budget, |body|)
    ensures Cut(budget) <= |body|
    ensures WriteFile(fs, Target(dest, rel), body, overwrite, budget)
            == Wrote(fs[d + rel := File(body[..Cut(budget)])], budget, false)
  {
    hide *;
    RootedNames(fs, d, rel);
    RawDestNul(fs, dest, d);
    CutShort(budget, body);
    ParentMember(fs, dest, rel);
    OpenMember(fs, dest, d, rel);
    CreateMember(fs, d, rel, File([]));
    FillMember(fs, d + rel, body[..Cut(budget)]);
    TooLong(fs, Target(dest, rel), d + rel, body, overwrite, budget);
  }

  lemma {:induction false} CutShort(budget: int, body: seq<int>)
    requires !Affords(budget, |body|)
    ensures Cut(budget) <= |body|
  {
  }

  lemma {:induction false} TooLong(fs: FS, target: string, place: Path, body: seq<int>, overwrite: bool, budget: int)
    requires Tree(fs) && Tree(fs[place := File([])]) && !Affords(budget, |body|) && Cut(budget) <= |body|
    requires MakeParent(fs, target) == Effect(fs, true) && !LstatOk(fs, target)
    requires OpenWrite(fs, target) == Handle(fs[place := File([])], place, true)
    requires Fill(fs[place := File([])], place, body[..Cut(budget)]) == fs[place := File(body[..Cut(budget)])]
    ensures WriteFile(fs, target, body, overwrite, budget)
            == Wrote(fs[place := File(body[..Cut(budget)])], budget, false)
  {
    hide Tree, MakeParent, LstatOk, OpenWrite, Fill;
  }

  /** An entry beyond a limit ends the unpacking; a file keeps what was read of it. */
  ghost predicate Stopped(p: Progress, item: Item, d: Path, maxEntries: int, r: Progress)
  {
    && !r.ok && r.written == p.written
    && if maxEntries > 0 && p.written >= maxEntries then r.fs == p.fs
       else
         && item.node.File? && Cut(p.budget) <= |item.node.bytes|
         && r.fs == p.fs[d + item.rel := File(item.node.bytes[..Cut(p.budget)])]
  }

  lemma {:induction false} AdvanceOver(p: Progress, item: Item, dest: string, d: Path, overwrite: bool, maxEntries: int)
    requires p.ok && Tree(p.fs) && Dest(p.fs, dest, d) && !item.node.Special?
    requires Rooted(p.fs, d, item.rel) && Plain(item.rel)
    requires (maxEntries > 0 && p.written >= maxEntries)
             || (item.node.File? && !Affords(p.budget, |item.node.bytes|))
    ensures Stopped(p, item, d, maxEntries, Advance(p, MemberOf(item), dest, overwrite, maxEntries))
  {
    RootedNames(p.fs, d, item.rel);
    hide Tree, Dest, Rooted, Plain, Affords, SafeName, WriteFile, JoinPath, Join, ParentLeads, Cut;
    MemberName(item);
    TargetIs(dest, item.rel);
    if !(maxEntries > 0 && p.written >= maxEntries) {
      DestIsRaw(p.fs, dest, d);
      DestParent(p.fs, dest, d, item.rel);
      FileOver(p.fs, dest, d, item.rel, item.node.bytes, overwrite, p.budget);
    }
  }

  /**
   Entries that come parents first, into a destination where their places are free, are
   unpacked with success exactly when they are within both limits, and then are there. A byte limit that was used
   up to the last byte is none from then on.
   */
  lemma {:induction false} LimitsExactly(p: Progress, items: seq<Item>, dest: string, d: Path, overwrite: bool,
                                         maxEntries: int)
    requires p.ok && Tree(p.fs) && Dest(p.fs, dest, d) && Ready(p.fs, d, items)
    ensures var r := ExtractFrom(p, Members(items), 0, dest, overwrite, maxEntries);
            && (r.ok <==> Admitted(items, p.written, p.budget, maxEntries))
            && (r.ok ==> r.fs == Graft(p.fs, d, items) && r.written == p.written + |Members(items)|)
    decreases |items|
  {
    hide Tree, Dest, Rooted, Plain, Admitted, Advance, MemberOf, Affords, Left;
    if items == [] {
      NoneAdmitted(p.written, p.budget, maxEntries);
    } else {
      var item, rest := items[0], items[1..];
      AdmittedRest(items, p.written, p.budget, maxEntries);
      if item.node.Special? {
        LimitsExactly(p, rest, dest, d, overwrite, maxEntries);
      } else {
        var m, members := MemberOf(item), Members(rest);
        assert ([m] + members)[0] == m;
        var next := Advance(p, m, dest, overwrite, maxEntries);
        if (maxEntries <= 0 || p.written < maxEntries)
           && (item.node.File? ==> Affords(p.budget, |item.node.bytes|)) {
          AdvanceItem(p, item, dest, d, overwrite, maxEntries);
          LeftIs(item, p.budget);
          CreateMember(p.fs, d, item.rel, item.node);
          DestStable(p.fs, next.fs, dest, d);
          LimitsExactly(next, rest, dest, d, overwrite, maxEntries);
          ExtractShift(next, m, members, 0, dest, overwrite, maxEntries);
        } else {
          AdvanceOver(p, item, dest, d, overwrite, maxEntries);
        }
      }
    }
  }

  lemma {:induction false} LeftIs(item: Item, budget: int)
    ensures Left(item, budget) == if item.node.File? then Spend(budget, |item.node.bytes|) else budget
  {
  }

  lemma {:induction false} NoneAdmitted(written: nat, budget: int, maxEntries: int)
    ensures Admitted([], written, budget, maxEntries)
  {
  }

  /**
   And when they are not, those before the first that exceeds a limit are there, counted, and
   that one is not, or is there with one byte more than the limit.
   */
  lemma {:induction false} RefusedAt(p: Progress, items: seq<Item>, dest: string, d: Path, overwrite: bool,
                                     maxEntries: int) returns (k: nat)
    requires p.ok && Tree(p.fs) && Dest(p.fs, dest, d) && Ready(p.fs, d, items)
    requires !Admitted(items, p.written, p.budget, maxEntries)
    ensures k < |items|
    ensures var r := ExtractFrom(p, Members(items), 0, dest, overwrite, maxEntries);
            var q := ExtractFrom(p, Members(items[..k]), 0, dest, overwrite, maxEntries);
            && q.ok && q.fs == Graft(p.fs, d, items[..k]) && q.written == p.written + |Members(items[..k])|
            && Stopped(q, items[k], d, maxEntries, r)
    decreases |items|
  {
    hide Tree, Dest, Rooted, Plain, Admitted, Advance, MemberOf, Affords, Left, Stopped;
    if items == [] {
      NoneAdmitted(p.written, p.budget, maxEntries);
      assert false;
    }
    var item, rest := items[0], items[1..];
    AdmittedRest(items, p.written, p.budget, maxEntries);
    assert items[..0] == [];
    if item.node.Special? {
      k := RefusedAt(p, rest, dest, d, overwrite, maxEntries);
      PrefixItems(items, k);
      k := k + 1;
    } else {
      var m, members := MemberOf(item), Members(rest);
      assert ([m] + members)[0] == m;
      var next := Advance(p, m, dest, overwrite, maxEntries);
      if (maxEntries <= 0 || p.written < maxEntries)
         && (item.node.File? ==> Affords(p.budget, |item.node.bytes|)) {
        AdvanceItem(p, item, dest, d, overwrite, maxEntries);
        LeftIs(item, p.budget);
        CreateMember(p.fs, d, item.rel, item.node);
        DestStable(p.fs, next.fs, dest, d);
        k := RefusedAt(next, rest, dest, d, overwrite, maxEntries);
        ExtractShift(next, m, members, 0, dest, overwrite, maxEntries);
        ExtractShift(next, m, Members(rest[..k]), 0, dest, overwrite, maxEntries);
        PrefixItems(items, k);
        k := k + 1;
      } else {
        AdvanceOver(p, item, dest, d, overwrite, maxEntries);
        StoppedEnds(p, item, d, maxEntries, next);
        k := 0;
        assert p.fs == Graft(p.fs, d, items[..0]);
      }
    }
  }

  lemma {:induction false} StoppedEnds(p: Progress, item: Item, d: Path, maxEntries: int, r: Progress)
    requires Stopped(p, item, d, maxEntries, r)
    ensures !r.ok
  {
  }

  lemma {:induction false} PrefixItems(items: seq<Item>, k: nat)
    requires k < |items|
    ensures items[..k + 1] == [items[0]] + items[1..][..k] && items[..k + 1][0] == items[0]
    ensures items[..k + 1][1..] == items[1..][..k]
  {
  }
}
