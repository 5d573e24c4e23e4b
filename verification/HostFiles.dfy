/**
 The rewrites of /etc/passwd, /etc/shadow and /etc/group that a node-terminal
 session makes and undoes: appending an entry, removing a user's entries, adding
 a user to a group line and removing it again. Every rewrite is a transformation
 of the file's text, made as a whole or not at all.
 */
module HostFiles {
  import opened Text

  const NL: char := '\n'
  const COLON: char := ':'
  const COMMA: char := ','
  const MEMBERS_MAX: nat := 2047

  // ----- lines

  /** What `getline` returns one after the other: each line with its newline. */
  function Lines(s: string): (r: seq<string>)
    decreases |s|
  {
    if s == "" then []
    else
      var k := IndexOf(s, NL, 0);
      if k < 0 then [s] else [s[..k + 1]] + Lines(s[k + 1..])
  }

  /** A line that ends in its only newline. */
  predicate Whole(l: string)
  {
    |l| > 0 && l[|l| - 1] == NL && NL !in l[..|l| - 1]
  }

  predicate AllWhole(ls: seq<string>)
  {
    forall k | 0 <= k < |ls| :: Whole(ls[k])
  }

  /** The text ends in a newline, or is empty. */
  predicate Closed(s: string)
  {
    s == "" || s[|s| - 1] == NL
  }

  lemma {:induction false} FirstLine(l: string, rest: string)
    requires Whole(l)
    ensures Lines(l + rest) == [l] + Lines(rest)
  {
    var s := l + rest;
    assert s[|l| - 1] == NL;
    assert forall k | 0 <= k < |l| - 1 :: s[k] == l[..|l| - 1][k];
    assert IndexOf(s, NL, 0) == |l| - 1;
    assert s[..|l|] == l && s[|l|..] == rest;
  }

  /** Whole lines, laid end to end, come apart again. */
  lemma {:induction false} LinesOfConcat(ls: seq<string>)
    requires AllWhole(ls)
    ensures Lines(Concat(ls)) == ls && Closed(Concat(ls))
  {
    if ls != [] {
      LinesOfConcat(ls[1..]);
      FirstLine(ls[0], Concat(ls[1..]));
      assert [ls[0]] + ls[1..] == ls;
    }
  }

  /** The first newline ends the first line. */
  lemma {:induction false} CutLine(s: string) returns (found: bool, head: string, rest: string)
    requires s != ""
    ensures !found ==> NL !in s && Lines(s) == [s]
    ensures found ==> Whole(head) && s == head + rest && Lines(s) == [head] + Lines(rest) && |rest| < |s|
    ensures found ==> Closed(s) == Closed(rest)
  {
    var k := IndexOf(s, NL, 0);
    found, head, rest := k >= 0, s, "";
    if found {
      head, rest := s[..k + 1], s[k + 1..];
      assert head[..k] == s[..k];
    }
  }

  lemma {:induction false} ConcatOfLines(s: string)
    ensures Concat(Lines(s)) == s
    ensures Closed(s) ==> AllWhole(Lines(s))
    decreases |s|
  {
    if s != "" {
      var found, head, rest := CutLine(s);
      if found {
        ConcatOfLines(rest);
        hide Lines, Concat, Closed, Whole;
        ConcatCons(head, Lines(rest));
      } else {
        assert !Closed(s);
        hide Lines, Concat;
        ConcatCons(s, []);
      }
    }
  }

  lemma {:induction false} ConcatCons(l: string, ls: seq<string>)
    ensures Concat([l] + ls) == l + Concat(ls) && Concat([l]) == l
  {
    assert ([l] + ls)[1..] == ls && [l][1..] == [];
  }

  lemma {:induction false} LinesAppend(s: string, l: string)
    requires Closed(s) && Whole(l)
    ensures Lines(s + l) == Lines(s) + [l] && Closed(s + l)
    decreases |s|
  {
    hide Lines, Closed, Concat;
    ConcatOfLines(s);
    ConcatAppend(Lines(s), [l]);
    ConcatCons(l, []);
    AllWholeSnoc(Lines(s), l);
    LinesOfConcat(Lines(s) + [l]);
  }

  lemma {:induction false} AllWholeSnoc(ls: seq<string>, l: string)
    requires AllWhole(ls) && Whole(l)
    ensures AllWhole(ls + [l])
  {
  }

  // ----- appending an entry

  /** The text with a final newline added if it lacks one. */
  function Terminated(s: string): (r: string)
    ensures Closed(r)
  {
    if Closed(s) then s else s + [NL]
  }

  function Appended(s: string, entry: string): (r: string)
  {
    Terminated(s) + (entry + [NL])
  }

  method AppendTransform(input: string, entry: string) returns (output: string)
    ensures output == Appended(input, entry)
  {
    output := "";
    var lastWasNewline := true;
    var i := 0;
    while i < |input|
      invariant 0 <= i <= |input| && output == input[..i]
      invariant lastWasNewline == (i == 0 || input[i - 1] == NL)
    {
      output := output + [input[i]];
      lastWasNewline := input[i] == NL;
      i := i + 1;
    }
    assert input[..|input|] == input;
    if !lastWasNewline {
      output := output + [NL];
    }
    output := output + (entry + [NL]);
  }

  // ----- removing a user's entries

  function KeepLines(ls: seq<string>, prefix: string): (r: seq<string>)
  {
    if ls == [] then []
    else (if prefix <= ls[0] then [] else [ls[0]]) + KeepLines(ls[1..], prefix)
  }

  function Removed(s: string, prefix: string): (r: string)
  {
    Concat(KeepLines(Lines(s), prefix))
  }

  method RemoveTransform(input: string, prefix: string) returns (output: string)
    ensures output == Removed(input, prefix)
  {
    hide Lines, Concat;
    var ls := Lines(input);
    output := "";
    var i := 0;
    assert ls[0..] == ls;
    ghost var kept: seq<string> := [];
    assert output == Concat(kept) by { ConcatNone(); }
    while i < |ls|
      invariant 0 <= i <= |ls| && output == Concat(kept) && kept + KeepLines(ls[i..], prefix) == KeepLines(ls, prefix)
    {
      assert ls[i..][1..] == ls[i + 1..];
      if !(prefix <= ls[i]) {
        ConcatAppend(kept, [ls[i]]);
        ConcatCons(ls[i], []);
        CatAssoc(kept, [ls[i]], KeepLines(ls[i + 1..], prefix));
        output := output + ls[i];
        kept := kept + [ls[i]];
      }
      i := i + 1;
    }
    assert kept == KeepLines(ls, prefix);
  }

  lemma {:induction false} ConcatNone()
    ensures Concat<char>([]) == []
  {
  }

  /** No line of the text begins with the prefix. */
  predicate Lacks(s: string, prefix: string)
  {
    NoneBegin(Lines(s), prefix)
  }

  predicate NoneBegin(ls: seq<string>, prefix: string)
  {
    forall k | 0 <= k < |ls| :: !(prefix <= ls[k])
  }

  lemma {:induction false} KeepAll(ls: seq<string>, prefix: string)
    requires NoneBegin(ls, prefix)
    ensures KeepLines(ls, prefix) == ls
  {
    if ls != [] {
      KeepAll(ls[1..], prefix);
    }
  }

  lemma {:induction false} KeepAppend(a: seq<string>, b: seq<string>, prefix: string)
    ensures KeepLines(a + b, prefix) == KeepLines(a, prefix) + KeepLines(b, prefix)
  {
    if a == [] {
      assert a + b == b;
    } else {
      assert (a + b)[1..] == a[1..] + b;
      KeepAppend(a[1..], b, prefix);
    }
  }

  /** Terminating a text only closes its last line. */
  lemma {:induction false} TerminatedLacks(s: string, prefix: string)
    requires Lacks(s, prefix) && NL !in prefix
    ensures Lacks(Terminated(s), prefix)
    decreases |s|
  {
    if !Closed(s) {
      var found, head, rest := CutLine(s);
      if !found {
        assert Lines(s)[0] == s;
        CloseLine(s, prefix);
      } else {
        assert Lines(s)[0] == head;
        assert NoneBegin(Lines(rest), prefix) by {
          assert forall k | 0 <= k < |Lines(rest)| :: Lines(s)[k + 1] == Lines(rest)[k];
        }
        TerminatedLacks(rest, prefix);
        hide Lines, Closed, Whole;
        FirstLine(head, rest + [NL]);
        CatAssoc(head, rest, [NL]);
      }
    }
  }

  lemma {:induction false} CloseLine(s: string, prefix: string)
    requires NL !in s && !(prefix <= s) && NL !in prefix
    ensures Lacks(s + [NL], prefix)
  {
    var l := s + [NL];
    assert l[..|s|] == s;
    FirstLine(l, "");
    assert l + "" == l;
    assert Lines(l) == [l];
  }

  /** Removing a user's entries undoes appending one, up to a final newline. */
  lemma {:induction false} RemoveUndoesAppend(s: string, entry: string, prefix: string)
    requires Lacks(s, prefix) && prefix <= entry && NL !in entry
    ensures Removed(Appended(s, entry), prefix) == Terminated(s)
    ensures Terminated(s) == if s == "" || s[|s| - 1] == '\n' then s else s + "\n"
  {
    assert Terminated(s) == if s == "" || s[|s| - 1] == '\n' then s else s + "\n";
    hide Lines, Concat, Closed, Terminated;
    EntryIsWhole(entry, prefix);
    TerminatedLacks(s, prefix);
    RemoveLast(Terminated(s), entry + [NL], prefix);
  }

  lemma {:induction false} EntryIsWhole(entry: string, prefix: string)
    requires prefix <= entry && NL !in entry
    ensures Whole(entry + [NL]) && prefix <= entry + [NL] && NL !in prefix
  {
    assert (entry + [NL])[..|entry|] == entry;
  }

  lemma {:induction false} RemoveLast(s: string, l: string, prefix: string)
    requires Closed(s) && Lacks(s, prefix) && Whole(l) && prefix <= l
    ensures Removed(s + l, prefix) == s
  {
    hide Lines, Concat, Closed, Whole;
    LinesAppend(s, l);
    KeepAppend(Lines(s), [l], prefix);
    KeepAll(Lines(s), prefix);
    assert KeepLines([l], prefix) == [] by { assert [l][1..] == []; }
    assert Lines(s) + [] == Lines(s);
    ConcatOfLines(s);
  }

  // ----- editing a group line

  /** The non-empty fields of a line, as `strtok` finds them before the newline. */
  function Fields(l: string): (r: seq<string>)
  {
    var k := IndexOf(l, NL, 0);
    NonEmpty(Split(if k < 0 then l else l[..k], COLON))
  }

  function Tokens(members: string): (r: seq<string>)
  {
    NonEmpty(Split(members, COMMA))
  }

  /** The member names of a line that has at least three fields. */
  function MembersOf(fields: seq<string>): (r: seq<string>)
  {
    if |fields| > 3 then Tokens(fields[3]) else []
  }

  function Clip(s: string): (r: string)
    ensures |r| <= MEMBERS_MAX && (|s| <= MEMBERS_MAX ==> r == s)
  {
    if |s| <= MEMBERS_MAX then s else s[..MEMBERS_MAX]
  }

  /** `strncat` of a comma, unless the buffer is empty, and of a name; the buffer cuts both. */
  function Join1(acc: string, name: string): (r: string)
  {
    Clip((if acc != "" then Clip(acc + [COMMA]) else acc) + name)
  }

  function Gather(acc: string, tokens: seq<string>, user: string, add: bool): (r: string)
    decreases |tokens|
  {
    if tokens == [] then acc
    else if tokens[0] == user && !add then Gather(acc, tokens[1..], user, add)
    else Gather(Join1(acc, tokens[0]), tokens[1..], user, add)
  }

  function NewMembers(tokens: seq<string>, user: string, add: bool): (r: string)
  {
    var kept := Gather("", tokens, user, add);
    if add && user !in tokens then Join1(kept, user) else kept
  }

  function Render(name: string, passwd: string, gid: string, members: string): (r: string)
  {
    name + [COLON] + passwd + [COLON] + gid + [COLON] + members + [NL]
  }

  /** One line of the group file, when `user` joins or leaves `group`. */
  function Edited(l: string, group: string, user: string, add: bool): (r: string)
  {
    if !(group + [COLON] <= l) then l
    else
      var f := Fields(l);
      if |f| < 3 then l
      else Render(f[0], f[1], f[2], NewMembers(MembersOf(f), user, add))
  }

  function EditedLines(ls: seq<string>, group: string, user: string, add: bool): (r: seq<string>)
    ensures |r| == |ls|
    ensures forall k | 0 <= k < |ls| :: r[k] == Edited(ls[k], group, user, add)
  {
    if ls == [] then [] else [Edited(ls[0], group, user, add)] + EditedLines(ls[1..], group, user, add)
  }

  function EditedText(s: string, group: string, user: string, add: bool): (r: string)
  {
    Concat(EditedLines(Lines(s), group, user, add))
  }

  method GatherMembers(tokens: seq<string>, user: string, add: bool) returns (members: string)
    ensures members == NewMembers(tokens, user, add)
  {
    hide Join1;
    members := "";
    var alreadyPresent := false;
    var i := 0;
    assert tokens[0..] == tokens;
    while i < |tokens|
      invariant 0 <= i <= |tokens| && alreadyPresent == (user in tokens[..i])
      invariant Gather(members, tokens[i..], user, add) == Gather("", tokens, user, add)
    {
      assert tokens[i..][1..] == tokens[i + 1..];
      assert tokens[..i + 1] == tokens[..i] + [tokens[i]];
      var isTarget := tokens[i] == user;
      if isTarget {
        alreadyPresent := true;
      }
      if !(isTarget && !add) {
        members := Join1(members, tokens[i]);
      }
      i := i + 1;
    }
    assert tokens[..|tokens|] == tokens;
    if add && !alreadyPresent {
      members := Join1(members, user);
    }
  }

  method GroupMemberTransform(input: string, group: string, user: string, add: bool) returns (output: string)
    ensures output == EditedText(input, group, user, add)
  {
    hide Lines, Concat, Fields, Tokens, NewMembers, Render;
    var ls := Lines(input);
    output := "";
    var i := 0;
    ghost var all := EditedLines(ls, group, user, add);
    assert all[..0] == [];
    ConcatNone();
    while i < |ls|
      invariant 0 <= i <= |ls| && output == Concat(all[..i])
    {
      ConcatSnoc(all, i);
      if !(group + [COLON] <= ls[i]) {
        output := output + ls[i];
      } else {
        var f := Fields(ls[i]);
        if |f| < 3 {
          output := output + ls[i];
        } else {
          var members := GatherMembers(MembersOf(f), user, add);
          output := output + Render(f[0], f[1], f[2], members);
        }
      }
      i := i + 1;
    }
    assert all[..|ls|] == all;
  }

  lemma {:induction false} ConcatSnoc(ls: seq<string>, i: nat)
    requires i < |ls|
    ensures Concat(ls[..i + 1]) == Concat(ls[..i]) + ls[i]
  {
    assert ls[..i + 1] == ls[..i] + [ls[i]];
    ConcatAppend(ls[..i], [ls[i]]);
    ConcatCons(ls[i], []);
  }

  // ----- what an edit of a well-formed line does

  /** A name that a colon, a comma or a newline does not break. */
  predicate Atom(s: string)
  {
    s != "" && COLON !in s && COMMA !in s && NL !in s
  }

  predicate Field(s: string)
  {
    s != "" && COLON !in s && NL !in s
  }

  predicate Atoms(ts: seq<string>)
  {
    forall k | 0 <= k < |ts| :: Atom(ts[k])
  }

  lemma {:induction false} JoinFree(ts: seq<string>)
    requires Atoms(ts)
    ensures var j := Join(ts, COMMA); COLON !in j && NL !in j && (j == "" <==> ts == [])
  {
    if |ts| > 1 {
      JoinFree(ts[1..]);
    } else if |ts| == 1 {
      assert Atom(ts[0]);
    }
  }

  lemma {:induction false} TokensOfJoin(ts: seq<string>)
    requires Atoms(ts)
    ensures Tokens(Join(ts, COMMA)) == ts
  {
    if ts == [] {
      SplitNone("", COMMA);
      var one: seq<string> := [""];
      assert one[1..] == [];
      assert NonEmpty(one) == [];
    } else {
      SplitJoin(ts, COMMA);
      NonEmptyAll(ts);
    }
  }

  lemma {:induction false} RenderCut(name: string, passwd: string, gid: string, members: string)
    requires Field(name) && Field(passwd) && Field(gid) && COLON !in members && NL !in members
    ensures var l := Render(name, passwd, gid, members);
            Whole(l) && IndexOf(l, NL, 0) == |l| - 1
            && l[..|l| - 1] == name + [COLON] + (passwd + [COLON] + (gid + [COLON] + members))
  {
    var body := name + [COLON] + passwd + [COLON] + gid + [COLON] + members;
    var l := Render(name, passwd, gid, members);
    assert l == body + [NL] && l[..|body|] == body;
    assert NL !in body;
    assert body == name + [COLON] + (passwd + [COLON] + (gid + [COLON] + members));
  }

  lemma {:induction false} FieldsOfRender(name: string, passwd: string, gid: string, members: string)
    requires Field(name) && Field(passwd) && Field(gid) && COLON !in members && NL !in members
    ensures Fields(Render(name, passwd, gid, members))
            == [name, passwd, gid] + (if members == "" then [] else [members])
  {
    hide Render, Split, IndexOf;
    RenderCut(name, passwd, gid, members);
    SplitAtFirst(name, COLON, passwd + [COLON] + (gid + [COLON] + members));
    SplitAtFirst(passwd, COLON, gid + [COLON] + members);
    SplitAtFirst(gid, COLON, members);
    SplitNone(members, COLON);
    var parts := [name, passwd, gid, members];
    assert [name] + ([passwd] + ([gid] + [members])) == parts;
    FourFields(name, passwd, gid, members);
  }

  lemma {:induction false} FourFields(name: string, passwd: string, gid: string, members: string)
    requires name != "" && passwd != "" && gid != ""
    ensures NonEmpty([name, passwd, gid, members]) == [name, passwd, gid] + (if members == "" then [] else [members])
  {
    var three, last := [name, passwd, gid], [members];
    NonEmptyAll(three);
    NonEmptyAppend(three, last);
    assert three + last == [name, passwd, gid, members];
    assert last[1..] == [];
    assert NonEmpty(last) == if members == "" then [] else last;
  }

  /** A group line as a record. */
  datatype Row = Row(name: string, passwd: string, gid: string, members: seq<string>)

  predicate RowOk(r: Row)
  {
    Field(r.name) && Field(r.passwd) && Field(r.gid) && Atoms(r.members)
  }

  function RowText(r: Row): (l: string)
  {
    Render(r.name, r.passwd, r.gid, Join(r.members, COMMA))
  }

  function RowOf(l: string): (r: Row)
    requires |Fields(l)| >= 3
  {
    var f := Fields(l);
    Row(f[0], f[1], f[2], MembersOf(f))
  }

  function Size(ts: seq<string>): (n: nat)
  {
    if ts == [] then 0 else |ts[0]| + 1 + Size(ts[1..])
  }

  lemma {:induction false} SizeAppend(a: seq<string>, b: seq<string>)
    ensures Size(a + b) == Size(a) + Size(b)
  {
    if a == [] {
      assert a + b == b;
    } else {
      assert (a + b)[1..] == a[1..] + b;
      SizeAppend(a[1..], b);
    }
  }

  lemma {:induction false} JoinSize(ts: seq<string>)
    ensures |Join(ts, COMMA)| == if ts == [] then 0 else Size(ts) - 1
  {
    if |ts| > 1 {
      JoinSize(ts[1..]);
    } else if |ts| == 1 {
      assert ts[1..] == [];
    }
  }

  function Without(ts: seq<string>, user: string): (r: seq<string>)
  {
    if ts == [] then [] else (if ts[0] == user then [] else [ts[0]]) + Without(ts[1..], user)
  }

  /** Joined by commas the names fit the buffer: see `FitsIs`. */
  predicate Fits(ts: seq<string>)
  {
    Size(ts) <= MEMBERS_MAX + 1
  }

  lemma {:induction false} FitsIs(ts: seq<string>)
    ensures Fits(ts) <==> |Join(ts, COMMA)| <= MEMBERS_MAX
  {
    JoinSize(ts);
  }

  /** The members after `user` joined or left. */
  function Changed(ts: seq<string>, user: string, add: bool): (r: seq<string>)
  {
    if !add then Without(ts, user) else if user in ts then ts else ts + [user]
  }

  lemma {:induction false} Join1Is(done: seq<string>, t: string)
    requires Atoms(done) && Size(done) + |t| <= MEMBERS_MAX
    ensures Join1(Join(done, COMMA), t) == Join(done + [t], COMMA)
  {
    hide Join, Atoms;
    JoinFree(done);
    JoinSize(done);
    JoinSnoc(done, t, COMMA);
    JoinSize(done + [t]);
    SizeAppend(done, [t]);
    assert [t][1..] == [];
  }

  lemma {:induction false} GatherIsJoin(done: seq<string>, tokens: seq<string>, user: string, add: bool)
    requires Atoms(done) && Atoms(tokens)
    requires Size(done) + Size(if add then tokens else Without(tokens, user)) <= MEMBERS_MAX + 1
    ensures Gather(Join(done, COMMA), tokens, user, add)
            == Join(done + (if add then tokens else Without(tokens, user)), COMMA)
    decreases |tokens|
  {
    hide Join, Join1;
    if tokens == [] {
      assert done + [] == done;
    } else {
      var t, rest := tokens[0], tokens[1..];
      var more := if add then rest else Without(rest, user);
      if t == user && !add {
        assert [] + more == more;
        GatherIsJoin(done, rest, user, add);
      } else {
        SizeAppend([t], more);
        SizeAppend(done, [t]);
        assert [t][1..] == [];
        Join1Is(done, t);
        assert Atoms(done + [t]);
        GatherIsJoin(done + [t], rest, user, add);
        CatAssoc(done, [t], more);
        assert tokens == [t] + rest;
      }
    }
  }

  lemma {:induction false} NewMembersIs(tokens: seq<string>, user: string, add: bool)
    requires Atoms(tokens) && Atom(user) && Fits(Changed(tokens, user, add))
    ensures NewMembers(tokens, user, add) == Join(Changed(tokens, user, add), COMMA)
  {
    hide Gather, Join1, Join;
    JoinOne<char>("", COMMA);
    SizeAppend(tokens, [user]);
    assert [user][1..] == [];
    GatherIsJoin([], tokens, user, add);
    assert [] + tokens == tokens && [] + Without(tokens, user) == Without(tokens, user);
    if add && user !in tokens {
      Join1Is(tokens, user);
    }
  }

  lemma {:induction false} ChangedAtoms(ts: seq<string>, user: string, add: bool)
    requires Atoms(ts) && Atom(user)
    ensures Atoms(Changed(ts, user, add)) && (add ==> user in Changed(ts, user, add))
    ensures !add ==> user !in Changed(ts, user, add)
    ensures !add && user !in ts ==> Changed(ts, user, add) == ts
  {
    if ts != [] {
      ChangedAtoms(ts[1..], user, add);
      assert ts == [ts[0]] + ts[1..];
    }
  }

  lemma {:induction false} WithoutAdded(ts: seq<string>, user: string)
    requires user !in ts
    ensures Without(ts + [user], user) == ts
  {
    if ts == [] {
      assert [user][1..] == [];
      assert ts + [user] == [user];
    } else {
      assert (ts + [user])[1..] == ts[1..] + [user];
      WithoutAdded(ts[1..], user);
    }
  }

  /** A rendered row reads back as itself. */
  lemma {:induction false} RowRead(r: Row)
    requires RowOk(r)
    ensures |Fields(RowText(r))| >= 3 && RowOf(RowText(r)) == r && Whole(RowText(r))
  {
    hide Fields, Join, Tokens, Render;
    JoinFree(r.members);
    TokensOfJoin(r.members);
    RenderCut(r.name, r.passwd, r.gid, Join(r.members, COMMA));
    FieldsOfRender(r.name, r.passwd, r.gid, Join(r.members, COMMA));
  }

  /** Which group names a row's line answers to: its own. */
  lemma {:induction false} RowMatches(r: Row, group: string)
    requires RowOk(r) && Field(group)
    ensures group + [COLON] <= RowText(r) <==> group == r.name
  {
    var l, n := RowText(r), r.name;
    var rest := r.passwd + [COLON] + r.gid + [COLON] + Join(r.members, COMMA) + [NL];
    assert l == n + [COLON] + rest;
    assert l[|n|] == COLON && l[..|n|] == n;
    if group + [COLON] <= l {
      assert l[|group|] == (group + [COLON])[|group|] == COLON;
      assert l[..|group|] == group;
    }
  }

  /** Editing a rendered row renders the changed row. */
  lemma {:induction false} EditRow(r: Row, group: string, user: string, add: bool)
    requires RowOk(r) && Field(group) && Atom(user) && Fits(Changed(r.members, user, add))
    ensures Edited(RowText(r), group, user, add)
            == if group == r.name then RowText(r.(members := Changed(r.members, user, add))) else RowText(r)
  {
    hide Fields, Join, Render, MembersOf, NewMembers, Changed, Atom, Field;
    RowMatches(r, group);
    RowRead(r);
    NewMembersIs(r.members, user, add);
  }

  /** The fields and tokens of any line are proper. */
  lemma {:induction false} RowOfOk(l: string)
    requires |Fields(l)| >= 3
    ensures RowOk(RowOf(l)) && Size(RowOf(l).members) <= |l| + 1
  {
    hide Fields, Split, NonEmpty, Tokens;
    var cut := FieldsDef(l);
    FieldsProper(cut);
    var f := Fields(l);
    assert Field(f[0]) && Field(f[1]) && Field(f[2]);
    if |f| > 3 {
      TokensProper(f[3]);
    }
  }

  /** The text whose fields are looked at: everything before the newline. */
  lemma {:induction false} FieldsDef(l: string) returns (cut: string)
    ensures NL !in cut && cut <= l && (cut == l || l[|cut|] == NL) && Fields(l) == NonEmpty(Split(cut, COLON))
  {
    var k := IndexOf(l, NL, 0);
    cut := if k < 0 then l else l[..k];
  }

  lemma {:induction false} PieceInside(s: string, sep: char, c: char)
    requires c !in s
    ensures forall p | p in Split(s, sep) :: c !in p && |p| <= |s|
    decreases |s|
  {
    var found, head, rest := Cut(s, sep);
    if found {
      PieceInside(rest, sep, c);
    }
  }

  lemma {:induction false} FieldsProper(cut: string)
    requires NL !in cut
    ensures var f := NonEmpty(Split(cut, COLON)); forall k | 0 <= k < |f| :: Field(f[k]) && |f[k]| <= |cut|
  {
    NonEmptyPieces(Split(cut, COLON));
    SplitFree(cut, COLON);
    PieceInside(cut, COLON, NL);
  }

  lemma {:induction false} SplitSize(s: string)
    ensures Size(NonEmpty(Split(s, COMMA))) <= |s| + 1
    decreases |s|
  {
    hide NonEmpty, Split;
    var found, head, rest := Cut(s, COMMA);
    if found {
      SplitSize(rest);
      NonEmptyAppend([head], Split(rest, COMMA));
      SizeAppend(NonEmpty([head]), NonEmpty(Split(rest, COMMA)));
      OnePiece(head);
    } else {
      OnePiece(s);
    }
  }

  lemma {:induction false} OnePiece(s: string)
    ensures NonEmpty([s]) == (if s == "" then [] else [s]) && Size(NonEmpty([s])) <= |s| + 1
  {
    assert [s][1..] == [];
  }

  lemma {:induction false} TokensProper(members: string)
    requires Field(members)
    ensures Atoms(Tokens(members)) && Size(Tokens(members)) <= |members| + 1
  {
    NonEmptyPieces(Split(members, COMMA));
    SplitFree(members, COMMA);
    PieceInside(members, COMMA, NL);
    PieceInside(members, COMMA, COLON);
    SplitSize(members);
  }

  /** A line that is its own canonical rendering and does not list the user. */
  predicate Canonical(l: string, user: string)
  {
    |Fields(l)| >= 3 && l == RowText(RowOf(l)) && user !in RowOf(l).members
  }

  /** The first field of a line that a group name matches is that name. */
  lemma {:induction false} MatchedName(l: string, group: string)
    requires group + [COLON] <= l && Field(group) && |Fields(l)| >= 3
    ensures Fields(l)[0] == group
  {
    hide Fields, Split, NonEmpty;
    var cut := FieldsDef(l);
    assert l[|group|] == (group + [COLON])[|group|] == COLON;
    assert |cut| > |group|;
    var rest := cut[|group| + 1..];
    assert cut == group + [COLON] + rest;
    SplitAtFirst(group, COLON, rest);
    NonEmptyAppend([group], Split(rest, COLON));
    OnePiece(group);
  }

  lemma {:induction false} GatherFree(acc: string, tokens: seq<string>, user: string, add: bool, c: char)
    requires c != COMMA && c !in acc && forall k | 0 <= k < |tokens| :: c !in tokens[k]
    ensures c !in Gather(acc, tokens, user, add)
    decreases |tokens|
  {
    if tokens != [] {
      GatherFree(if tokens[0] == user && !add then acc else Join1(acc, tokens[0]), tokens[1..], user, add, c);
    }
  }

  lemma {:induction false} GatherShort(acc: string, tokens: seq<string>, user: string, add: bool)
    requires |acc| <= MEMBERS_MAX
    ensures |Gather(acc, tokens, user, add)| <= MEMBERS_MAX
    decreases |tokens|
  {
    if tokens != [] {
      GatherShort(if tokens[0] == user && !add then acc else Join1(acc, tokens[0]), tokens[1..], user, add);
    }
  }

  /** What is written as the members of a line is a field that fits the buffer. */
  lemma {:induction false} NewMembersProper(tokens: seq<string>, user: string, add: bool)
    requires Atoms(tokens) && Atom(user)
    ensures var m := NewMembers(tokens, user, add); COLON !in m && NL !in m && |m| <= MEMBERS_MAX
  {
    hide Gather;
    assert forall k | 0 <= k < |tokens| :: Atom(tokens[k]);
    GatherFree("", tokens, user, add, COLON);
    GatherFree("", tokens, user, add, NL);
    GatherShort("", tokens, user, add);
  }

  /** The members of a line once `user` has joined, as they are read back. */
  function JoinedMembers(ts: seq<string>, user: string): (r: seq<string>)
  {
    Tokens(NewMembers(ts, user, true))
  }

  lemma {:induction false} JoinedMembersOk(ts: seq<string>, user: string)
    requires Atoms(ts) && Atom(user)
    ensures Atoms(JoinedMembers(ts, user)) && Fits(JoinedMembers(ts, user))
  {
    hide NewMembers, Tokens, Atom;
    NewMembersProper(ts, user, true);
    if NewMembers(ts, user, true) == "" {
      NoTokens();
    } else {
      TokensProper(NewMembers(ts, user, true));
    }
  }

  lemma {:induction false} NoTokens()
    ensures Tokens("") == []
  {
    SplitNone("", COMMA);
    OnePiece("");
  }

  lemma {:induction false} WithoutSize(ts: seq<string>, user: string)
    ensures Size(Without(ts, user)) <= Size(ts)
  {
    if ts != [] {
      WithoutSize(ts[1..], user);
      var rest := Without(ts[1..], user);
      assert ([ts[0]] + rest)[1..] == rest && [] + rest == rest;
    }
  }

  lemma {:induction false} LeftIs(ts: seq<string>, user: string)
    ensures Changed(ts, user, false) == Without(ts, user)
  {
  }

  lemma {:induction false} EditRender(name: string, passwd: string, gid: string, members: string, user: string,
                                      add: bool)
    requires Field(name) && Field(passwd) && Field(gid) && COLON !in members && NL !in members
    ensures Edited(Render(name, passwd, gid, members), name, user, add)
            == Render(name, passwd, gid, NewMembers(Tokens(members), user, add))
  {
    hide Fields, Tokens, NewMembers;
    FieldsOfRender(name, passwd, gid, members);
    NoTokens();
    var l := Render(name, passwd, gid, members);
    assert l == (name + [COLON]) + (passwd + [COLON] + gid + [COLON] + members + [NL]);
    assert (name + [COLON]) <= l;
  }

  /** Joining and leaving, whatever the line: the members read back after joining, without the user. */
  lemma {:induction false} EditTwice(l: string, group: string, user: string)
    requires group + [COLON] <= l && |Fields(l)| >= 3 && Field(group) && Atom(user)
    ensures var r := RowOf(l);
            var left := r.(members := Without(JoinedMembers(r.members, user), user));
            Edited(Edited(l, group, user, true), group, user, false) == RowText(left) && RowOk(left)
  {
    hide Fields, Join, Render, NewMembers, Atom, Field, Tokens, Changed;
    RowOfOk(l);
    MatchedName(l, group);
    var r := RowOf(l);
    var joined := JoinedMembers(r.members, user);
    NewMembersProper(r.members, user, true);
    EditRender(r.name, r.passwd, r.gid, NewMembers(r.members, user, true), user, false);
    JoinedMembersOk(r.members, user);
    LeftIs(joined, user);
    WithoutSize(joined, user);
    NewMembersIs(joined, user, false);
    ChangedAtoms(joined, user, false);
  }

  /** Names that joining leaves as they are, or adds the user to: the user fits, or not even a comma does. */
  predicate Undisturbed(ts: seq<string>, user: string)
  {
    |Join(ts + [user], COMMA)| <= 2047 || |Join(ts, COMMA)| == 2046 || |Join(ts, COMMA)| == 2047
  }

  lemma {:induction false} WithoutNone(ts: seq<string>, user: string)
    requires user !in ts
    ensures Without(ts, user) == ts
  {
    if ts != [] {
      WithoutNone(ts[1..], user);
      assert ts == [ts[0]] + ts[1..];
    }
  }

  lemma {:induction false} CommaLast(ts: seq<string>)
    requires Atoms(ts)
    ensures Tokens(Join(ts, COMMA) + [COMMA]) == ts
  {
    hide Join, Split, Atoms;
    var j := Join(ts, COMMA);
    TokensOfJoin(ts);
    SplitBetween(j, COMMA, "");
    SplitNone("", COMMA);
    OnePiece("");
    assert j + [COMMA] + "" == j + [COMMA] && ts + [] == ts;
    NonEmptyAppend(Split(j, COMMA), [""]);
  }

  /** The buffer ends inside the user's name: what is left of it stays behind as a member. */
  lemma {:induction false} CutName(ts: seq<string>, user: string) returns (part: string)
    requires Atoms(ts) && Atom(user) && |Join(ts, COMMA)| < MEMBERS_MAX - 1 && !Fits(ts + [user])
    ensures Atom(part) && part != user && Join1(Join(ts, COMMA), user) == Join(ts + [part], COMMA)
  {
    hide Join, Atoms;
    var j := Join(ts, COMMA);
    JoinFree(ts);
    JoinSize(ts);
    SizeAppend(ts, [user]);
    assert [user][1..] == [] && Size([user]) == |user| + 1;
    var front := if ts == [] then "" else j + [COMMA];
    part := user[..MEMBERS_MAX - |front|];
    assert part != "" && |part| < |user|;
    JoinSnoc(ts, part, COMMA);
    assert (front + user)[..MEMBERS_MAX] == front + part;
    assert ts == [] ==> j == "" && front + part == part;
  }

  /** When what was read back after joining is the old members and the user, and so is undone by leaving. */
  lemma {:induction false} JoinedThenLeft(ts: seq<string>, user: string)
    requires Atoms(ts) && Atom(user) && user !in ts && Fits(ts)
    ensures Without(JoinedMembers(ts, user), user) == ts <==> Undisturbed(ts, user)
  {
    hide Join, Atoms, Gather, Tokens, Size;
    var j := Join(ts, COMMA);
    FitsIs(ts);
    FitsIs(ts + [user]);
    OldMembers(ts, user);
    TokensOfJoin(ts);
    WithoutNone(ts, user);
    JoinFree(ts);
    if Fits(ts + [user]) {
      NewMembersIs(ts, user, true);
      AtomsSnoc(ts, user);
      TokensOfJoin(ts + [user]);
      WithoutAdded(ts, user);
    } else if |j| == MEMBERS_MAX {
      assert (j + [COMMA])[..MEMBERS_MAX] == j && (j + user)[..MEMBERS_MAX] == j;
    } else if |j| == MEMBERS_MAX - 1 {
      CommaLast(ts);
      assert (j + [COMMA] + user)[..MEMBERS_MAX] == j + [COMMA];
    } else {
      var part := CutName(ts, user);
      AtomsSnoc(ts, part);
      TokensOfJoin(ts + [part]);
      assert part in ts + [part] && user !in ts + [part];
      WithoutNone(ts + [part], user);
      assert |ts + [part]| != |ts|;
    }
  }

  lemma {:induction false} AtomsSnoc(ts: seq<string>, t: string)
    requires Atoms(ts) && Atom(t)
    ensures Atoms(ts + [t])
  {
    hide Atom;
  }

  lemma {:induction false} OldMembers(ts: seq<string>, user: string)
    requires Atoms(ts) && Fits(ts) && user !in ts
    ensures NewMembers(ts, user, true) == Join1(Join(ts, COMMA), user)
  {
    hide Gather, Join1, Join;
    JoinOne<char>("", COMMA);
    GatherIsJoin([], ts, user, true);
    assert [] + ts == ts;
  }

  /**
   Joining a group and leaving it again restores a line exactly when the line was in
   canonical form, did not list the user, and its members and the user fit the buffer or
   its members fill it up to where not one character of the user's name fits after them.
   */
  lemma {:induction false} EditUndone(l: string, group: string, user: string)
    requires group + [COLON] <= l && |Fields(l)| >= 3 && Field(group) && Atom(user)
    ensures Edited(Edited(l, group, user, true), group, user, false) == l
            <==> Canonical(l, user) && Undisturbed(RowOf(l).members, user)
  {
    hide Fields, Atom, Field, Tokens, RowText, NewMembers, Join, Render, MembersOf;
    RowOfOk(l);
    EditTwice(l, group, user);
    var r := RowOf(l);
    var joined := JoinedMembers(r.members, user);
    var left := r.(members := Without(joined, user));
    JoinedMembersOk(r.members, user);
    WithoutSize(joined, user);
    WithoutGone(joined, user);
    if RowText(left) == l {
      RowRead(left);
      JoinedThenLeft(r.members, user);
    }
    if Canonical(l, user) && Undisturbed(r.members, user) {
      UndisturbedFits(r.members, user);
      JoinedThenLeft(r.members, user);
    }
  }

  lemma {:induction false} WithoutGone(ts: seq<string>, user: string)
    ensures user !in Without(ts, user)
  {
    if ts != [] {
      WithoutGone(ts[1..], user);
    }
  }

  lemma {:induction false} UndisturbedFits(ts: seq<string>, user: string)
    requires Undisturbed(ts, user)
    ensures Fits(ts)
  {
    hide Join;
    FitsIs(ts);
    FitsIs(ts + [user]);
    SizeAppend(ts, [user]);
    assert [user][1..] == [];
  }

  /** A line with an empty password field is not restored: the fields after it move up. */
  lemma {:induction false} EmptyFieldLost(group: string, gid: string, rest: string, user: string)
    requires Field(group) && Field(gid) && Field(rest) && Atom(user) && |user| <= MEMBERS_MAX
    ensures var l := group + [COLON] + [COLON] + gid + [COLON] + rest + [NL];
            && group + [COLON] <= l && |Fields(l)| == 3
            && Edited(Edited(l, group, user, true), group, user, false) == Render(group, gid, rest, "") != l
  {
    var l := group + [COLON] + [COLON] + gid + [COLON] + rest + [NL];
    EmptyFieldRead(group, gid, rest);
    assert l == (group + [COLON]) + ([COLON] + gid + [COLON] + rest + [NL]);
    assert group + [COLON] <= l;
    assert l[|group| + 1] == COLON && Render(group, gid, rest, "")[|group| + 1] == gid[0] && gid[0] in gid;
    hide Fields, Atom, Field, Tokens, NewMembers, Render, Join;
    EditTwice(l, group, user);
    assert [user][1..] == [] && Size([user]) == |user| + 1 && [] + [user] == [user];
    assert Fits([]) && Fits([user]);
    FitsIs([user]);
    JoinedThenLeft([], user);
    assert Join<char>([], COMMA) == "" by { JoinOne<char>("", COMMA); }
  }

  lemma {:induction false} FieldsOfBody(body: string)
    requires NL !in body
    ensures Fields(body + [NL]) == NonEmpty(Split(body, COLON))
  {
    hide Split, NonEmpty;
    var l := body + [NL];
    assert l[|body|] == NL && l[..|body|] == body;
    assert forall k | 0 <= k < |body| :: l[k] == body[k];
  }

  lemma {:induction false} EmptyFieldRead(group: string, gid: string, rest: string)
    requires Field(group) && Field(gid) && Field(rest)
    ensures Fields(group + [COLON] + [COLON] + gid + [COLON] + rest + [NL]) == [group, gid, rest]
  {
    hide Split, Fields, NonEmpty;
    var body := group + [COLON] + ("" + [COLON] + (gid + [COLON] + rest));
    assert group + [COLON] + [COLON] + gid + [COLON] + rest + [NL] == body + [NL];
    FieldsOfBody(body);
    SplitAtFirst(group, COLON, "" + [COLON] + (gid + [COLON] + rest));
    SplitAtFirst("", COLON, gid + [COLON] + rest);
    SplitAtFirst(gid, COLON, rest);
    SplitNone(rest, COLON);
    assert [group] + ([""] + ([gid] + [rest])) == [group, "", gid, rest];
    NonEmptyAppend([group], ["", gid, rest]);
    NonEmptyAppend([""], [gid, rest]);
    NonEmptyAll([gid, rest]);
    OnePiece(group);
    OnePiece("");
    assert [group] + ["", gid, rest] == [group, "", gid, rest] && [""] + [gid, rest] == ["", gid, rest];
    assert [group] + ([] + [gid, rest]) == [group, gid, rest];
  }

  /** A user who was a member already is dropped. */
  lemma {:induction false} MemberDropped(r: Row, user: string)
    requires RowOk(r) && Atom(user) && user in r.members && Fits(r.members)
    ensures var back := Edited(Edited(RowText(r), r.name, user, true), r.name, user, false);
            back == RowText(r.(members := Without(r.members, user))) != RowText(r)
  {
    hide Fields, Join, Render, MembersOf, NewMembers, Atom, Field, RowText, Edited;
    EditRow(r, r.name, user, true);
    LeftIs(r.members, user);
    WithoutSize(r.members, user);
    EditRow(r, r.name, user, false);
    assert r.(members := r.members) == r;
    ChangedAtoms(r.members, user, false);
    RowRead(r);
    RowRead(r.(members := Without(r.members, user)));
  }

  // ----- joining several groups and leaving them again

  /** The group file after `user` joined or left each of the groups in turn. */
  function EditedAll(s: string, groups: seq<string>, user: string, add: bool): (r: string)
    decreases |groups|
  {
    if groups == [] then s else EditedAll(EditedText(s, groups[0], user, add), groups[1..], user, add)
  }

  /** No edit loses anything of the line: no group matches it, it is passed over, or it is canonical. */
  predicate Restorable(l: string, groups: seq<string>, user: string)
  {
    || (forall k | 0 <= k < |groups| :: !(groups[k] + [COLON] <= l) || |Fields(l)| < 3)
    || Roomy(l, user)
  }

  /** A canonical line with room for the user. */
  predicate Roomy(l: string, user: string)
  {
    Canonical(l, user) && Fits(RowOf(l).members + [user])
  }

  predicate AllRestorable(ls: seq<string>, groups: seq<string>, user: string)
  {
    forall k | 0 <= k < |ls| :: Restorable(ls[k], groups, user)
  }

  function Joined(l: string, user: string): (r: string)
    requires |Fields(l)| >= 3
  {
    var row := RowOf(l);
    RowText(row.(members := row.members + [user]))
  }

  /** A line on its way: as it was, or canonical with the user added by one of `pending`. */
  predicate Along(was: string, l: string, user: string, pending: seq<string>)
  {
    || l == was
    || (Roomy(was, user) && l == Joined(was, user) && RowOf(was).name in pending)
  }

  lemma {:induction false} JoinedRow(was: string, user: string)
    requires Roomy(was, user) && Atom(user)
    ensures var row := RowOf(was);
            && RowOk(row) && Fits(row.members) && was == RowText(row) && user !in row.members
            && RowOk(row.(members := row.members + [user])) && Fits(row.members + [user])
            && Changed(row.members, user, true) == row.members + [user]
            && Changed(row.members, user, false) == row.members
            && Changed(row.members + [user], user, true) == row.members + [user]
            && Changed(row.members + [user], user, false) == row.members
  {
    hide Fields, RowText, Atom, Field;
    RowOfOk(was);
    var members := RowOf(was).members;
    SizeAppend(members, [user]);
    assert [user][1..] == [];
    WithoutAdded(members, user);
    ChangedAtoms(members, user, false);
  }

  /** One edit moves a line along: joining makes its group pending, leaving settles it. */
  lemma {:induction false} AlongStep(was: string, l: string, user: string, pending: seq<string>, groups: seq<string>,
                                     group: string, add: bool)
    requires Restorable(was, groups, user) && group in groups && Field(group) && Atom(user)
    requires Along(was, l, user, pending)
    ensures add ==> Along(was, Edited(l, group, user, add), user, pending + [group])
    ensures !add && pending != [] && pending[0] == group ==> Along(was, Edited(l, group, user, add), user, pending[1..])
  {
    if Roomy(was, user) {
      var row := RowOf(was);
      assert Joined(was, user) == RowText(row.(members := row.members + [user]));
      hide Fields, RowText, Atom, Field, Edited, Canonical, Changed, RowOk, Fits, Roomy;
      JoinedRow(was, user);
      EditRow(row, group, user, add);
      EditRow(row.(members := row.members + [user]), group, user, add);
      assert row.(members := row.members) == row;
      if row.name in pending && pending[0] != row.name {
        assert row.name in pending[1..];
      }
    } else {
      hide Fields, Canonical, Joined;
      assert l == was;
      assert Edited(l, group, user, add) == l;
    }
  }

  predicate AlongAll(was: seq<string>, ls: seq<string>, user: string, pending: seq<string>)
  {
    |ls| == |was| && forall k | 0 <= k < |ls| :: Along(was[k], ls[k], user, pending)
  }

  lemma {:induction false} AlongWhole(was: string, l: string, user: string, pending: seq<string>)
    requires Along(was, l, user, pending) && Whole(was) && Atom(user)
    ensures Whole(l)
  {
    hide Fields, Whole, RowText;
    if l != was {
      JoinedRow(was, user);
      var row := RowOf(was);
      RowRead(row.(members := row.members + [user]));
    }
  }

  /** An edit of a text is the edit of its lines. */
  lemma {:induction false} EditStep(was: seq<string>, s: string, user: string, pending: seq<string>, next: seq<string>,
                                    groups: seq<string>, group: string, add: bool)
    requires AllRestorable(was, groups, user) && AllWhole(was) && group in groups && Field(group) && Atom(user)
    requires Closed(s) && AlongAll(was, Lines(s), user, pending)
    requires if add then next == pending + [group] else pending != [] && pending[0] == group && next == pending[1..]
    ensures var t := EditedText(s, group, user, add); Closed(t) && AlongAll(was, Lines(t), user, next)
  {
    hide Lines, Concat, Closed, Edited, Along, Restorable, Whole, Field, Atom;
    var ls := EditedLines(Lines(s), group, user, add);
    forall k | 0 <= k < |ls| ensures Along(was[k], ls[k], user, next) && Whole(ls[k]) {
      AlongStep(was[k], Lines(s)[k], user, pending, groups, group, add);
      AlongWhole(was[k], ls[k], user, next);
    }
    LinesOfConcat(ls);
  }

  lemma {:induction false} JoinAll(was: seq<string>, s: string, user: string, pending: seq<string>,
                                   groups: seq<string>, todo: seq<string>)
    requires AllRestorable(was, groups, user) && AllWhole(was) && Atom(user)
    requires forall k | 0 <= k < |groups| :: Field(groups[k])
    requires forall k | 0 <= k < |todo| :: todo[k] in groups
    requires Closed(s) && AlongAll(was, Lines(s), user, pending)
    ensures var t := EditedAll(s, todo, user, true); Closed(t) && AlongAll(was, Lines(t), user, pending + todo)
    decreases |todo|
  {
    hide Closed, AlongAll, AllRestorable, AllWhole, EditedText, Lines, Atom, Field;
    if todo == [] {
      assert pending + todo == pending;
    } else {
      EditStep(was, s, user, pending, pending + [todo[0]], groups, todo[0], true);
      JoinAll(was, EditedText(s, todo[0], user, true), user, pending + [todo[0]], groups, todo[1..]);
      assert pending + [todo[0]] + todo[1..] == pending + todo;
    }
  }

  lemma {:induction false} LeaveAll(was: seq<string>, s: string, user: string, groups: seq<string>, todo: seq<string>)
    requires AllRestorable(was, groups, user) && AllWhole(was) && Atom(user)
    requires forall k | 0 <= k < |groups| :: Field(groups[k])
    requires forall k | 0 <= k < |todo| :: todo[k] in groups
    requires Closed(s) && AlongAll(was, Lines(s), user, todo)
    ensures var t := EditedAll(s, todo, user, false); Closed(t) && AlongAll(was, Lines(t), user, [])
    decreases |todo|
  {
    hide Closed, AlongAll, AllRestorable, AllWhole, EditedText, Lines, Atom, Field;
    if todo != [] {
      EditStep(was, s, user, todo, todo[1..], groups, todo[0], false);
      LeaveAll(was, EditedText(s, todo[0], user, false), user, groups, todo[1..]);
    }
  }

  lemma {:induction false} AlongStart(was: seq<string>, user: string)
    ensures AlongAll(was, was, user, [])
  {
  }

  lemma {:induction false} AlongEnd(was: seq<string>, ls: seq<string>, user: string)
    requires AlongAll(was, ls, user, [])
    ensures ls == was
  {
  }

  /** Joining some of the groups and leaving them again restores the group file. */
  lemma {:induction false} LeaveUndoesJoin(s: string, groups: seq<string>, some: seq<string>, user: string)
    requires Closed(s) && AllRestorable(Lines(s), groups, user) && Atom(user)
    requires forall k | 0 <= k < |groups| :: Field(groups[k])
    requires forall k | 0 <= k < |some| :: some[k] in groups
    ensures EditedAll(EditedAll(s, some, user, true), some, user, false) == s
  {
    hide *;
    ConcatOfLines(s);
    var was := Lines(s);
    AlongStart(was, user);
    JoinAll(was, s, user, [], groups, some);
    assert [] + some == some;
    var joined := EditedAll(s, some, user, true);
    LeaveAll(was, joined, user, groups, some);
    var left := EditedAll(joined, some, user, false);
    AlongEnd(was, Lines(left), user);
    ConcatOfLines(left);
  }
}
