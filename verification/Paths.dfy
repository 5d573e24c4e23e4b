/**
 The path strings of the file browser: how they are cleaned, split into
 components and joined, and the laws that let a path be read as its components.
 */
module Paths {
  import opened Text

  const SLASH: char := '/'
  const NUL: char := '\0'

  datatype Cleaned = Clean(path: string) | Invalid

  function TrimLeft(p: string): (r: string)
    ensures r == "" || r[0] != SLASH
  {
    if |p| > 0 && p[0] == SLASH then TrimLeft(p[1..]) else p
  }

  function TrimRight(p: string): (r: string)
  {
    if |p| > 0 && p[|p| - 1] == SLASH then TrimRight(p[..|p| - 1]) else p
  }

  /** A slash-separated path without leading slashes; "" and "/" become ".". */
  function CleanPath(p: string): (r: Cleaned)
  {
    if NUL in p then Invalid
    else if TrimLeft(p) == "" then Clean(".")
    else Clean(TrimLeft(p))
  }

  /** Drops empty and "." components, keeping "..". */
  function Keep(parts: seq<string>): (r: seq<string>)
  {
    if parts == [] then []
    else if parts[0] == "" || parts[0] == "." then Keep(parts[1..])
    else [parts[0]] + Keep(parts[1..])
  }

  function Components(s: string): (r: seq<string>)
  {
    Keep(Split(s, SLASH))
  }

  method SplitComponents(cleaned: string) returns (out: seq<string>)
    ensures out == Components(cleaned)
  {
    var parts := Split(cleaned, SLASH);
    out := [];
    var i := 0;
    assert parts[0..] == parts;
    while i < |parts|
      invariant 0 <= i <= |parts| && out + Keep(parts[i..]) == Keep(parts)
    {
      assert parts[i..][1..] == parts[i + 1..];
      if parts[i] != "" && parts[i] != "." {
        out := out + [parts[i]];
      }
      i := i + 1;
    }
  }

  /** Joins a directory and a child name, keeping one leading slash. */
  function JoinPath(dir: string, name: string): (r: string)
  {
    var d := [SLASH] + TrimRight(TrimLeft(dir));
    if d == [SLASH] then [SLASH] + name else d + [SLASH] + name
  }

  /** What a component naming a directory entry looks like. */
  predicate NameOk(c: string)
  {
    c != "" && c != "." && c != ".." && SLASH !in c && NUL !in c
  }

  predicate NamesOk(cs: seq<string>)
  {
    forall c | c in cs :: NameOk(c)
  }

  /** Components that a resolver can meet: names, or "..". */
  predicate StepsOk(cs: seq<string>)
  {
    forall k | 0 <= k < |cs| :: cs[k] == ".." || NameOk(cs[k])
  }

  lemma {:induction false} KeepSteps(parts: seq<string>)
    requires forall k | 0 <= k < |parts| :: SLASH !in parts[k] && NUL !in parts[k]
    ensures StepsOk(Keep(parts))
  {
    if parts != [] {
      KeepSteps(parts[1..]);
    }
  }

  lemma {:induction false} SplitNoNul(s: string)
    requires NUL !in s
    ensures forall k | 0 <= k < |Split(s, SLASH)| :: NUL !in Split(s, SLASH)[k]
    decreases |s|
  {
    var k := IndexOf(s, SLASH, 0);
    if k >= 0 {
      SplitNoNul(s[k + 1..]);
    }
  }

  lemma {:induction false} ComponentsSteps(s: string)
    requires NUL !in s
    ensures StepsOk(Components(s))
  {
    SplitFree(s, SLASH);
    SplitNoNul(s);
    KeepSteps(Split(s, SLASH));
  }

  lemma {:induction false} TrimLeftNoNul(p: string)
    requires NUL !in p
    ensures NUL !in TrimLeft(p)
  {
    if |p| > 0 && p[0] == SLASH {
      TrimLeftNoNul(p[1..]);
    }
  }

  lemma {:induction false} StepsConcat(a: seq<string>, b: seq<string>)
    requires StepsOk(a) && StepsOk(b)
    ensures StepsOk(a + b)
  {
  }

  // ----- a path string read as its components

  lemma {:induction false} KeepAppend(a: seq<string>, b: seq<string>)
    ensures Keep(a + b) == Keep(a) + Keep(b)
  {
    if a == [] {
      assert a + b == b;
    } else {
      assert (a + b)[1..] == a[1..] + b;
      KeepAppend(a[1..], b);
    }
  }

  /** A slash separates components. */
  lemma {:induction false} ComponentsSlash(a: string, b: string)
    ensures Components(a + [SLASH] + b) == Components(a) + Components(b)
  {
    SplitBetween(a, SLASH, b);
    KeepAppend(Split(a, SLASH), Split(b, SLASH));
  }

  lemma {:induction false} ComponentsEmpty()
    ensures Components("") == [] && Components(".") == []
  {
    SplitNone("", SLASH);
    SplitNone(".", SLASH);
    assert Keep([""]) == Keep([""][1..]) && Keep(["."]) == Keep(["."][1..]);
  }

  lemma {:induction false} ComponentsTrimLeft(p: string)
    ensures Components(TrimLeft(p)) == Components(p)
  {
    hide Components;
    if |p| > 0 && p[0] == SLASH {
      ComponentsTrimLeft(p[1..]);
      ComponentsSlash("", p[1..]);
      ComponentsEmpty();
      assert p == "" + [SLASH] + p[1..];
    }
  }

  lemma {:induction false} ComponentsTrimRight(p: string)
    ensures Components(TrimRight(p)) == Components(p)
  {
    hide Components;
    if |p| > 0 && p[|p| - 1] == SLASH {
      ComponentsTrimRight(p[..|p| - 1]);
      ComponentsSlash(p[..|p| - 1], "");
      ComponentsEmpty();
      assert p == p[..|p| - 1] + [SLASH] + "";
    }
  }

  /** Cleaning a path does not change its components. */
  lemma {:induction false} ComponentsClean(p: string)
    requires NUL !in p
    ensures Components(CleanPath(p).path) == Components(p)
  {
    hide Components;
    ComponentsTrimLeft(p);
    ComponentsEmpty();
  }

  lemma {:induction false} ComponentsRooted(p: string)
    ensures Components([SLASH] + p) == Components(p)
  {
    hide Components;
    ComponentsSlash("", p);
    ComponentsEmpty();
    assert "" + [SLASH] + p == [SLASH] + p;
  }

  /** Joining a directory and a name joins their components. */
  lemma {:induction false} ComponentsJoinPath(dir: string, name: string)
    ensures Components(JoinPath(dir, name)) == Components(dir) + Components(name)
  {
    hide Components, TrimLeft, TrimRight;
    var trimmed := TrimRight(TrimLeft(dir));
    ComponentsTrimLeft(dir);
    ComponentsTrimRight(TrimLeft(dir));
    ComponentsRooted(trimmed);
    if [SLASH] + trimmed == [SLASH] {
      assert ([SLASH] + trimmed)[1..] == trimmed;
      ComponentsEmpty();
      ComponentsRooted(name);
    } else {
      ComponentsSlash([SLASH] + trimmed, name);
    }
  }

  lemma {:induction false} KeepNames(names: seq<string>)
    requires StepsOk(names)
    ensures Keep(names) == names
  {
    if names != [] {
      KeepNames(names[1..]);
    }
  }

  /** Joined names, and "..", come apart again. */
  lemma {:induction false} ComponentsJoin(names: seq<string>)
    requires StepsOk(names)
    ensures Components(Join(names, SLASH)) == names
  {
    if names == [] {
      ComponentsEmpty();
    } else {
      SplitJoin(names, SLASH);
      KeepNames(names);
    }
  }

  lemma {:induction false} JoinNoNul(names: seq<string>)
    requires StepsOk(names)
    ensures NUL !in Join(names, SLASH)
  {
    if |names| > 1 {
      JoinNoNul(names[1..]);
    }
  }

  lemma {:induction false} TrimRightNoNul(p: string)
    requires NUL !in p
    ensures NUL !in TrimRight(p)
  {
    if |p| > 0 && p[|p| - 1] == SLASH {
      TrimRightNoNul(p[..|p| - 1]);
    }
  }

  lemma {:induction false} JoinPathNoNul(dir: string, name: string)
    requires NUL !in dir && NUL !in name
    ensures NUL !in JoinPath(dir, name)
  {
    TrimLeftNoNul(dir);
    TrimRightNoNul(TrimLeft(dir));
  }

  // ----- lexical cleaning

  /** The component stack of Go's `path.Clean`; a rooted path drops ".." at the root. */
  function Lexical(rooted: bool, parts: seq<string>, stack: seq<string>): (r: seq<string>)
    decreases |parts|
  {
    if parts == [] then stack
    else if parts[0] != ".." then Lexical(rooted, parts[1..], stack + [parts[0]])
    else if stack != [] && stack[|stack| - 1] != ".." then Lexical(rooted, parts[1..], stack[..|stack| - 1])
    else if rooted then Lexical(rooted, parts[1..], stack)
    else Lexical(rooted, parts[1..], stack + [".."])
  }

  /** Go's `path.Clean` */
  function PathClean(p: string): (r: string)
  {
    var rooted := |p| > 0 && p[0] == SLASH;
    var stack := Lexical(rooted, Components(p), []);
    if rooted then [SLASH] + Join(stack, SLASH)
    else if stack == [] then "."
    else Join(stack, SLASH)
  }

  /** Go's `path.Dir` */
  function DirName(p: string): (r: string)
  {
    PathClean(p[..LastIndexOf(p, SLASH) + 1])
  }

  lemma {:induction false} LexicalNames(rooted: bool, names: seq<string>, stack: seq<string>)
    requires NamesOk(names)
    ensures Lexical(rooted, names, stack) == stack + names
  {
    if names == [] {
      assert stack + names == stack;
    } else {
      assert NameOk(names[0]);
      LexicalNames(rooted, names[1..], stack + [names[0]]);
      assert stack + [names[0]] + names[1..] == stack + names;
    }
  }

  lemma {:induction false} LexicalAppend(rooted: bool, a: seq<string>, b: seq<string>, stack: seq<string>)
    ensures Lexical(rooted, a + b, stack) == Lexical(rooted, b, Lexical(rooted, a, stack))
    decreases |a|
  {
    if a == [] {
      assert a + b == b;
    } else {
      assert (a + b)[1..] == a[1..] + b;
      var next := if a[0] != ".." then stack + [a[0]]
                  else if stack != [] && stack[|stack| - 1] != ".." then stack[..|stack| - 1]
                  else if rooted then stack
                  else stack + [".."];
      LexicalAppend(rooted, a[1..], b, next);
    }
  }

  /** A rooted path cleans to proper names only. */
  lemma {:induction false} LexicalRooted(parts: seq<string>, stack: seq<string>)
    requires StepsOk(parts) && NamesOk(stack)
    ensures NamesOk(Lexical(true, parts, stack))
    decreases |parts|
  {
    if parts != [] {
      if parts[0] != ".." {
        LexicalRooted(parts[1..], stack + [parts[0]]);
      } else if stack != [] && stack[|stack| - 1] != ".." {
        LexicalRooted(parts[1..], stack[..|stack| - 1]);
      } else {
        LexicalRooted(parts[1..], stack);
      }
    }
  }

  /** Going through the steps from depth `depth`, some ".." leaves the start. */
  predicate Escapes(parts: seq<string>, depth: nat)
    decreases |parts|
  {
    parts != [] && if parts[0] != ".." then Escapes(parts[1..], depth + 1)
                   else depth == 0 || Escapes(parts[1..], depth - 1)
  }

  /** Once a relative path has left its start, ".." stays in front. */
  lemma {:induction false} LexicalOutside(parts: seq<string>, stack: seq<string>)
    requires StepsOk(parts) && StepsOk(stack) && stack != [] && stack[0] == ".."
    ensures var r := Lexical(false, parts, stack); StepsOk(r) && r != [] && r[0] == ".."
    decreases |parts|
  {
    if parts != [] {
      if parts[0] != ".." {
        LexicalOutside(parts[1..], stack + [parts[0]]);
      } else if stack[|stack| - 1] != ".." {
        LexicalOutside(parts[1..], stack[..|stack| - 1]);
      } else {
        LexicalOutside(parts[1..], stack + [".."]);
      }
    }
  }

  /** A relative path cleans to a ".." in front exactly when it leaves its start. */
  lemma {:induction false} LexicalRelative(parts: seq<string>, stack: seq<string>)
    requires StepsOk(parts) && NamesOk(stack)
    ensures var r := Lexical(false, parts, stack);
            StepsOk(r) && if Escapes(parts, |stack|) then r != [] && r[0] == ".." else NamesOk(r)
    decreases |parts|
  {
    if parts == [] {
      assert StepsOk(stack);
    } else if parts[0] != ".." {
      LexicalRelative(parts[1..], stack + [parts[0]]);
    } else if stack != [] {
      assert NameOk(stack[|stack| - 1]);
      LexicalRelative(parts[1..], stack[..|stack| - 1]);
    } else {
      assert stack + [".."] == [".."];
      LexicalOutside(parts[1..], [".."]);
    }
  }

  /** The components of a cleaned rooted path. */
  lemma {:induction false} PathCleanRooted(p: string)
    requires NUL !in p && |p| > 0 && p[0] == SLASH
    ensures var stack := Lexical(true, Components(p), []);
            NamesOk(stack) && Components(PathClean(p)) == stack && NUL !in PathClean(p)
  {
    hide Components, Lexical;
    ComponentsSteps(p);
    var stack := Lexical(true, Components(p), []);
    LexicalRooted(Components(p), []);
    assert StepsOk(stack);
    ComponentsJoin(stack);
    JoinNoNul(stack);
    ComponentsRooted(Join(stack, SLASH));
  }
}
