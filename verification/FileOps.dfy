/**
 The operations of the filesystem root that create entries, on the strings and
 errors of the sandbox root. Every operation is a function from one filesystem to
 the next; `MkdirAll` is also given as the loop it is.
 */
module FileOps {
  import opened Text
  import opened Paths
  import opened RootFs

  /** The filesystem an operation leaves, and whether it reported success. */
  datatype Effect = Effect(fs: FS, ok: bool)

  /** mkdir(2), symlink(2) or open(2) with O_CREAT at a resolved place that must be free. */
  function CreateAt(fs: FS, p: Path, node: Node): (r: Effect)
    requires Tree(fs)
    ensures Tree(r.fs)
  {
    if p in fs || p == [] || !NameOk(p[|p| - 1]) || Parent(p) !in fs || fs[Parent(p)] != Dir then Effect(fs, false)
    else
      CreateKeepsTree(fs, p, node);
      Effect(fs[p := node], true)
  }

  lemma {:induction false} CreateKeepsTree(fs: FS, p: Path, node: Node)
    requires Tree(fs) && p !in fs && p != [] && NameOk(p[|p| - 1]) && Parent(p) in fs && fs[Parent(p)] == Dir
    ensures Tree(fs[p := node])
  {
    var next := fs[p := node];
    forall q | q in next && q != [] ensures Parent(q) in next && next[Parent(q)] == Dir && NameOk(q[|q| - 1]) {
      if q != p {
        assert Parent(q) in fs;
      }
    }
  }

  /** `Root.Mkdir` */
  function Mkdir(fs: FS, p: string): (r: Effect)
    requires Tree(fs)
    ensures Tree(r.fs)
  {
    match ResolvePath(fs, p, false)
    case Fail(_) => Effect(fs, false)
    case Ok(place) => CreateAt(fs, place, Dir)
  }

  /** `Root.Symlink` */
  function Symlink(fs: FS, target: string, p: string): (r: Effect)
    requires Tree(fs)
    ensures Tree(r.fs)
  {
    match ResolvePath(fs, p, false)
    case Fail(_) => Effect(fs, false)
    case Ok(place) => CreateAt(fs, place, Link(target))
  }

  /** `Root.Stat` succeeds and reports a directory. */
  predicate StatIsDir(fs: FS, p: string)
    requires Tree(fs)
  {
    var r := ResolvePath(fs, p, true);
    r.Ok? && r.path in fs && fs[r.path] == Dir
  }

  /** `Root.Lstat` of a path other than the root succeeds. */
  predicate LstatOk(fs: FS, p: string)
    requires Tree(fs)
  {
    var r := ResolvePath(fs, p, false);
    r.Ok? && r.path in fs
  }

  /** `Root.MkdirAll` from the component at `k` on. */
  function MkdirFrom(fs: FS, parts: seq<string>, k: nat): (r: Effect)
    requires Tree(fs) && k <= |parts|
    ensures Tree(r.fs)
    decreases |parts| - k
  {
    if k == |parts| then Effect(fs, true)
    else
      var built := Spelled(parts[..k + 1]);
      var made := Mkdir(fs, built);
      if made.ok then MkdirFrom(made.fs, parts, k + 1)
      else if StatIsDir(fs, built) then MkdirFrom(fs, parts, k + 1)
      else Effect(fs, false)
  }

  function MkdirAll(fs: FS, p: string): (r: Effect)
    requires Tree(fs)
    ensures Tree(r.fs)
  {
    match CleanPath(p)
    case Invalid => Effect(fs, false)
    case Clean(cleaned) => MkdirFrom(fs, Components(cleaned), 0)
  }

  /** A disk whose content the operations change in place. */
  class Disk {
    var fs: FS

    constructor (content: FS)
      ensures fs == content
    {
      fs := content;
    }

    method MakeAll(p: string) returns (ok: bool)
      requires Tree(fs)
      modifies this
      ensures Effect(fs, ok) == MkdirAll(old(fs), p) && Tree(fs)
    {
      var cleaned := CleanPath(p);
      if cleaned.Invalid? {
        return false;
      }
      if cleaned.path == "." {
        ComponentsEmpty();
        return true;
      }
      ok := MakeEach(Components(cleaned.path));
    }

    method MakeEach(parts: seq<string>) returns (ok: bool)
      requires Tree(fs)
      modifies this
      ensures Effect(fs, ok) == MkdirFrom(old(fs), parts, 0) && Tree(fs)
    {
      hide Tree, Mkdir, StatIsDir, Join;
      var built := "";
      var k := 0;
      assert built == Join(parts[..0], SLASH) by { EmptyJoin(); }
      while k < |parts|
        invariant 0 <= k <= |parts| && Tree(fs)
        invariant built == Join(parts[..k], SLASH)
        invariant MkdirFrom(fs, parts, k) == MkdirFrom(old(fs), parts, 0)
      {
        JoinSnoc(parts[..k], parts[k], SLASH);
        assert parts[..k] + [parts[k]] == parts[..k + 1];
        if k == 0 {
          built := parts[k];
        } else {
          built := built + [SLASH] + parts[k];
        }
        var made := Mkdir(fs, [SLASH] + built);
        if !made.ok {
          if !StatIsDir(fs, [SLASH] + built) {
            return false;
          }
        } else {
          fs := made.fs;
        }
        k := k + 1;
      }
      ok := true;
    }
  }

  lemma {:induction false} EmptyJoin()
    ensures Join<char>([], SLASH) == []
  {
  }
}
