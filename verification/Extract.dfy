/**
 Unpacking: member names are made safe, and every member is written through the
 filesystem root. An archive is the list of its members.
 */
module Extract {
  import opened Text
  import opened Paths
  import opened RootFs
  import opened FileOps
  import opened Reaching

  const BACKSLASH: char := '\\'

  datatype Kind = TypeDir | TypeSymlink | TypeReg | TypeOther

  datatype Member = Member(name: string, kind: Kind, link: string, body: seq<int>)

  datatype Limits = Limits(maxBytes: int, maxEntries: int)

  // ----- member names

  /** A member's name: refused, the destination itself, or a clean relative path. */
  datatype Safe = Refused | Here | Name(path: string)

  function Unback(s: string): (r: string)
    ensures |r| == |s|
    ensures forall k | 0 <= k < |s| :: r[k] == if s[k] == BACKSLASH then SLASH else s[k]
  {
    if s == "" then "" else [if s[0] == BACKSLASH then SLASH else s[0]] + Unback(s[1..])
  }

  /** ".." itself, or a path that begins with it. */
  predicate GoesUp(c: string)
  {
    c == ".." || (|c| >= 3 && c[..3] == "../")
  }

  function SafeName(member: string): (r: Safe)
  {
    if NUL in member then Refused
    else
      var name := Unback(member);
      if |name| > 0 && name[0] == SLASH then Refused
      else
        var cleaned := PathClean(name);
        if cleaned == "." || cleaned == "/" then Here
        else if GoesUp(cleaned) then Refused
        else Name(cleaned)
  }

  lemma {:induction false} GoesUpComponents(c: string)
    requires GoesUp(c)
    ensures Components(c) != [] && Components(c)[0] == ".."
  {
    hide Components;
    ComponentsDotDot();
    if c != ".." {
      ComponentsSlash("..", c[3..]);
      assert c == ".." + [SLASH] + c[3..];
    }
  }

  lemma {:induction false} UpJoined(stack: seq<string>)
    requires stack != [] && stack[0] == ".."
    ensures GoesUp(Join(stack, SLASH))
  {
    if |stack| > 1 {
      assert Join(stack, SLASH) == "../" + Join(stack[1..], SLASH);
    }
  }

  lemma {:induction false} ParentFirst(stack: seq<string>)
    requires StepsOk(stack) && stack != []
    ensures var c := Join(stack, SLASH); c != "." && c != "/" && (stack[0] == ".." <==> GoesUp(c))
  {
    hide Components, Join, GoesUp, StepsOk;
    var c := Join(stack, SLASH);
    ComponentsJoin(stack);
    ComponentsEmpty();
    ComponentsRooted("");
    assert [SLASH] + "" == "/";
    if GoesUp(c) {
      GoesUpComponents(c);
    } else if stack[0] == ".." {
      UpJoined(stack);
    }
  }

  lemma {:induction false} ComponentsDotDot()
    ensures Components("..") == [".."]
  {
    SplitNone("..", SLASH);
    assert [".."][1..] == [];
  }

  /**
   A member is refused exactly when its name holds a NUL, is absolute, or steps
   outside the destination; any other name becomes one without "..".
   */
  lemma {:induction false} SafeNameExact(member: string)
    ensures var parts := Components(Unback(member));
            var absolute := |member| > 0 && (member[0] == SLASH || member[0] == BACKSLASH);
            match SafeName(member)
            case Refused => NUL in member || absolute || Escapes(parts, 0)
            case Here => !(NUL in member || absolute || Escapes(parts, 0)) && Lexical(false, parts, []) == []
            case Name(path) =>
              && !(NUL in member || absolute || Escapes(parts, 0))
              && NamesOk(Components(path)) && Components(path) == Lexical(false, parts, []) != []
              && path == Join(Components(path), SLASH) && NUL !in path
  {
    hide Components, Lexical, Escapes;
    if NUL !in member && !(|member| > 0 && (member[0] == SLASH || member[0] == BACKSLASH)) {
      var name := Unback(member);
      var parts := Components(name);
      assert NUL !in name;
      ComponentsSteps(name);
      LexicalRelative(parts, []);
      var stack := Lexical(false, parts, []);
      if stack != [] {
        ParentFirst(stack);
        ComponentsJoin(stack);
        JoinNoNul(stack);
        if !Escapes(parts, 0) {
          assert NameOk(stack[0]);
        }
      }
    }
  }

  // ----- writing one member

  const NO_LIMIT: int := 0x4000_0000_0000_0000

  datatype Wrote = Wrote(fs: FS, budget: int, ok: bool)

  /** The parent directories of a member are made if they are missing. */
  function MakeParent(fs: FS, target: string): (r: Effect)
    requires Tree(fs)
    ensures Tree(r.fs)
  {
    var dir := DirName(target);
    if dir != "" && dir != "." then MkdirAll(fs, dir) else Effect(fs, true)
  }

  datatype Handle = Handle(fs: FS, place: Path, ok: bool)

  /** Opening for writing: a regular or special file, or a free place. */
  function OpenWrite(fs: FS, target: string): (r: Handle)
    requires Tree(fs)
    ensures Tree(r.fs) && (r.ok ==> r.place in r.fs)
  {
    match ResolvePath(fs, target, true)
    case Fail(_) => Handle(fs, [], false)
    case Ok(place) =>
      if place !in fs then
        var made := CreateAt(fs, place, File([]));
        Handle(made.fs, place, made.ok)
      else Handle(fs, place, fs[place] != Dir && !fs[place].Link?)
  }

  /** Bytes written to a place that was opened; a special file keeps none. */
  function Fill(fs: FS, place: Path, body: seq<int>): (r: FS)
    requires Tree(fs) && place in fs
    ensures Tree(r)
  {
    if fs[place].File? then
      FillKeepsTree(fs, place, body);
      fs[place := File(body)]
    else fs
  }

  lemma {:induction false} FillKeepsTree(fs: FS, place: Path, body: seq<int>)
    requires Tree(fs) && place in fs && fs[place].File?
    ensures Tree(fs[place := File(body)])
  {
    var next := fs[place := File(body)];
    forall q | q in next && q != [] ensures Parent(q) in next && next[Parent(q)] == Dir && NameOk(q[|q| - 1]) {
      assert Parent(q) in fs;
    }
  }

  function WriteFile(fs: FS, target: string, body: seq<int>, overwrite: bool, budget: int): (r: Wrote)
    requires Tree(fs)
    ensures Tree(r.fs)
  {
    var made := MakeParent(fs, target);
    if !made.ok || (!overwrite && LstatOk(made.fs, target)) then Wrote(made.fs, budget, false)
    else
      var handle := OpenWrite(made.fs, target);
      if !handle.ok then Wrote(handle.fs, budget, false)
      else
        var limit := if budget <= 0 then NO_LIMIT else budget;
        if |body| > limit then Wrote(Fill(handle.fs, handle.place, body[..limit + 1]), budget, false)
        else Wrote(Fill(handle.fs, handle.place, body), if budget > 0 then budget - |body| else budget, true)
  }

  /** `Root.Remove`: a link, a file, or an empty directory. */
  function Remove(fs: FS, p: string): (r: Effect)
    requires Tree(fs)
    ensures Tree(r.fs)
  {
    match ResolvePath(fs, p, false)
    case Fail(_) => Effect(fs, false)
    case Ok(place) =>
      if place == [] || place !in fs || exists q | q in fs :: place < q then Effect(fs, false)
      else
        RemoveKeepsTree(fs, place);
        Effect(fs - {place}, true)
  }

  lemma {:induction false} RemoveKeepsTree(fs: FS, place: Path)
    requires Tree(fs) && place != [] && place in fs && !exists q | q in fs :: place < q
    ensures Tree(fs - {place})
  {
    var next := fs - {place};
    forall q | q in next && q != [] ensures Parent(q) in next && next[Parent(q)] == Dir && NameOk(q[|q| - 1]) {
      assert Parent(q) in fs && Parent(q) < q;
    }
  }

  function WriteSymlink(fs: FS, target: string, link: string, overwrite: bool): (r: Effect)
    requires Tree(fs)
    ensures Tree(r.fs)
  {
    var made := MakeParent(fs, target);
    if !made.ok then made
    else if !LstatOk(made.fs, target) then Symlink(made.fs, link, target)
    else if !overwrite then Effect(made.fs, false)
    else
      var gone := Remove(made.fs, target);
      if gone.ok then Symlink(gone.fs, link, target) else gone
  }

  /** One member of a kind that is unpacked. */
  function WriteMember(fs: FS, m: Member, target: string, overwrite: bool, budget: int): (r: Wrote)
    requires Tree(fs)
    ensures Tree(r.fs)
  {
    match m.kind
    case TypeDir => var e := MkdirAll(fs, target); Wrote(e.fs, budget, e.ok)
    case TypeSymlink => var e := WriteSymlink(fs, target, m.link, overwrite); Wrote(e.fs, budget, e.ok)
    case TypeReg => WriteFile(fs, target, m.body, overwrite, budget)
    case TypeOther => Wrote(fs, budget, true)
  }

  // ----- the loop

  /** The state of an extraction: `written` counts entries. */
  datatype Progress = Progress(fs: FS, written: nat, budget: int, ok: bool)

  function ExtractFrom(p: Progress, members: seq<Member>, k: nat, dest: string, overwrite: bool,
                       maxEntries: int): (r: Progress)
    requires Tree(p.fs) && k <= |members|
    ensures Tree(r.fs)
    decreases |members| - k
  {
    if !p.ok || k == |members| then p
    else ExtractFrom(Advance(p, members[k], dest, overwrite, maxEntries), members, k + 1, dest, overwrite, maxEntries)
  }

  function Advance(p: Progress, m: Member, dest: string, overwrite: bool, maxEntries: int): (r: Progress)
    requires Tree(p.fs)
    ensures Tree(r.fs)
  {
    var safe := SafeName(m.name);
    if safe.Refused? then p.(ok := false)
    else if safe.Here? then p
    else if maxEntries > 0 && p.written >= maxEntries then p.(ok := false)
    else
      var w := WriteMember(p.fs, m, JoinPath(dest, safe.path), overwrite, p.budget);
      if !w.ok then Progress(w.fs, p.written, w.budget, false)
      else Progress(w.fs, if m.kind == TypeOther then p.written else p.written + 1, w.budget, true)
  }

  method ExtractTar(disk: Disk, members: seq<Member>, dest: string, overwrite: bool, limits: Limits)
    returns (written: nat, ok: bool)
    requires Tree(disk.fs)
    modifies disk
    ensures var r := ExtractFrom(Progress(old(disk.fs), 0, limits.maxBytes, true), members, 0, dest, overwrite,
                                 limits.maxEntries);
            Tree(disk.fs) && disk.fs == r.fs && written == r.written && ok == r.ok
  {
    hide Tree, SafeName, WriteMember, JoinPath;
    written := 0;
    var budget := limits.maxBytes;
    var k := 0;
    ghost var all := ExtractFrom(Progress(disk.fs, 0, budget, true), members, 0, dest, overwrite, limits.maxEntries);
    while k < |members|
      invariant 0 <= k <= |members| && Tree(disk.fs)
      invariant all == ExtractFrom(Progress(disk.fs, written, budget, true), members, k, dest, overwrite,
                                   limits.maxEntries)
    {
      var m := members[k];
      k := k + 1;
      var safe := SafeName(m.name);
      if safe.Refused? {
        return written, false;
      }
      if safe.Name? {
        if limits.maxEntries > 0 && written >= limits.maxEntries {
          return written, false;
        }
        var w := WriteMember(disk.fs, m, JoinPath(dest, safe.path), overwrite, budget);
        disk.fs, budget := w.fs, w.budget;
        if !w.ok {
          return written, false;
        }
        if m.kind != TypeOther {
          written := written + 1;
        }
      }
    }
    ok := true;
  }

  // ----- without overwriting, nothing that exists is touched

  lemma {:induction false} MakeParentKeeps(fs: FS, target: string)
    requires Tree(fs)
    ensures Extends(fs, MakeParent(fs, target).fs)
  {
    hide MkdirFrom, DirName, Tree;
    var dir := DirName(target);
    if dir != "" && dir != "." {
      MkdirAllKeeps(fs, dir);
    }
  }

  lemma {:induction false} MkdirAllKeeps(fs: FS, p: string)
    requires Tree(fs)
    ensures Extends(fs, MkdirAll(fs, p).fs)
  {
    hide MkdirFrom, Tree;
    if NUL !in p {
      MkdirFromAdds(fs, Components(CleanPath(p).path), 0);
    }
  }

  /** A path that can be opened and exists is one that `Lstat` sees. */
  lemma {:induction false} OpenSeesNothingNew(fs: FS, target: string)
    requires Tree(fs) && !LstatOk(fs, target)
    ensures var r := ResolvePath(fs, target, true); r.Ok? ==> r.path !in fs
  {
    hide Reached, Tree, Components;
    if NUL !in target {
      RootIsSolid(fs);
      ResolveAgrees(fs, target, true);
      ResolveAgrees(fs, target, false);
      FinalComponent(fs, [], Components(target), 0, true);
    } else {
      ResolveComponents(fs, target, true);
    }
  }

  lemma {:induction false} WriteFileKeeps(fs: FS, target: string, body: seq<int>, budget: int)
    requires Tree(fs)
    ensures Extends(fs, WriteFile(fs, target, body, false, budget).fs)
  {
    hide Tree, ResolvePath, MakeParent, NameOk;
    MakeParentKeeps(fs, target);
    var made := MakeParent(fs, target);
    if made.ok && !LstatOk(made.fs, target) {
      OpenSeesNothingNew(made.fs, target);
    }
  }

  lemma {:induction false} WriteMemberKeeps(fs: FS, m: Member, target: string, budget: int)
    requires Tree(fs)
    ensures Extends(fs, WriteMember(fs, m, target, false, budget).fs)
  {
    hide Tree, ResolvePath, MakeParent, MkdirAll, WriteFile, LstatOk, NameOk;
    match m.kind
    case TypeDir => MkdirAllKeeps(fs, target);
    case TypeSymlink => MakeParentKeeps(fs, target);
    case TypeReg => WriteFileKeeps(fs, target, m.body, budget);
    case TypeOther =>
  }

  /**
   Whatever the archive holds and however its extraction ends, without `overwrite`
   every entry that was there is still there, with the same content.
   */
  lemma {:induction false} ExtractKeeps(p: Progress, members: seq<Member>, k: nat, dest: string, maxEntries: int)
    requires Tree(p.fs) && k <= |members|
    ensures Extends(p.fs, ExtractFrom(p, members, k, dest, false, maxEntries).fs)
    decreases |members| - k
  {
    hide Tree, SafeName, WriteMember, JoinPath;
    if p.ok && k < |members| {
      var m := members[k];
      var next := Advance(p, m, dest, false, maxEntries);
      if SafeName(m.name).Name? {
        WriteMemberKeeps(p.fs, m, JoinPath(dest, SafeName(m.name).path), p.budget);
      }
      ExtractKeeps(next, members, k + 1, dest, maxEntries);
    }
  }
}
