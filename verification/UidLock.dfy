/**
 Sessions that allocate UIDs concurrently. The allocation lock is held from the
 scan of the passwd file to the write that records the choice; leaving sessions
 rewrite the file without it. Every rewrite of the file is one step.
 */
module UidLock {
  import opened Wrappers
  import opened Text
  import opened HostFiles
  import opened Uids

  // ----- the passwd entry of a session

  const ENTRY_MAX: nat := 511

  /** The entry's front, up to and including the colon behind the UID. */
  function EntryFront(user: string, uid: nat): (r: string)
  {
    user + [COLON] + ("x" + [COLON] + (Decimal(uid) + [COLON]))
  }

  function PasswdEntry(user: string, uid: nat, home: string, shell: string): (r: string)
  {
    var full := EntryFront(user, uid) + (Decimal(uid) + ":node-terminal ephemeral session:" + home + ":" + shell);
    if |full| <= ENTRY_MAX then full else full[..ENTRY_MAX]
  }

  /** The line names its user and its UID, and nothing but the tail is ever cut off. */
  lemma {:induction false} EntryTail(user: string, uid: nat, home: string, shell: string) returns (tail: string)
    requires |EntryFront(user, uid)| <= ENTRY_MAX && NL !in home && NL !in shell
    ensures PasswdEntry(user, uid, home, shell) == EntryFront(user, uid) + tail && NL !in tail
  {
    hide EntryFront;
    var front := EntryFront(user, uid);
    var rest := Decimal(uid) + ":node-terminal ephemeral session:" + home + ":" + shell;
    DecimalDigits(uid);
    assert NL !in Decimal(uid);
    assert NL !in rest;
    var full := front + rest;
    tail := if |full| <= ENTRY_MAX then rest else rest[..ENTRY_MAX - |front|];
    assert |full| > ENTRY_MAX ==> full[..ENTRY_MAX] == front + tail;
  }

  lemma {:induction false} EntryUid(user: string, uid: nat, tail: string)
    requires Atom(user) && uid < ULONG
    ensures UidOf(EntryFront(user, uid) + tail) == Some(uid) && user + [COLON] <= EntryFront(user, uid) + tail
  {
    hide Split, Strtoul, Decimal;
    var d := Decimal(uid);
    DecimalDigits(uid);
    assert COLON !in d;
    var l := EntryFront(user, uid) + tail;
    assert l == user + [COLON] + ("x" + [COLON] + (d + [COLON] + tail));
    SplitAtFirst(user, COLON, "x" + [COLON] + (d + [COLON] + tail));
    SplitAtFirst("x", COLON, d + [COLON] + tail);
    SplitAtFirst(d, COLON, tail);
    ThirdField(user, "x", d, Split(tail, COLON));
    StrtoulDecimal(uid);
    assert l[..|user| + 1] == user + [COLON];
  }

  lemma {:induction false} ThirdField(a: string, b: string, c: string, more: seq<string>)
    requires a != "" && b != "" && c != ""
    ensures var f := NonEmpty([a] + ([b] + ([c] + more))); |f| >= 3 && f[2] == c && f[1] == b
  {
    NonEmptyAppend([a], [b] + ([c] + more));
    NonEmptyAppend([b], [c] + more);
    NonEmptyAppend([c], more);
    OnePiece(a);
    OnePiece(b);
    OnePiece(c);
  }

  // ----- what the scan takes for a UID

  /** The UID of a passwd line by its position: the third field, empty or not. */
  function PosixUid(l: string): (r: Option<nat>)
  {
    var f := Split(l, COLON);
    if |f| < 3 then None else Strtoul(f[2])
  }

  /** A line with a name and a password field is read by position. */
  lemma {:induction false} ReadByPosition(l: string)
    requires |Split(l, COLON)| >= 3 && Split(l, COLON)[0] != "" && Split(l, COLON)[1] != "" && PosixUid(l).Some?
    ensures UidOf(l) == PosixUid(l)
  {
    hide Split;
    var f := Split(l, COLON);
    assert f[2] != "" by {
      assert Strtoul("") == None;
    }
    assert f == [f[0]] + ([f[1]] + ([f[2]] + f[3..]));
    ThirdField(f[0], f[1], f[2], f[3..]);
  }

  function Blank(field: string): (n: nat)
  {
    if field == "" then 1 else 0
  }

  /** What the scan reads instead: as many fields further on, counting those not empty, as are empty in front. */
  function Misread(f: seq<string>): (r: Option<nat>)
    requires |f| >= 3 && (f[0] == "" || f[1] == "")
  {
    var blanks, later := Blank(f[0]) + Blank(f[1]), NonEmpty(f[3..]);
    if |later| < blanks then None else Strtoul(later[blanks - 1])
  }

  /**
   A line that has a UID by position: with an empty name or password field the scan reads
   the next field that is not empty in its stead, or with both the one after, if any; so
   it sees the UID exactly when neither is empty or that field reads as the same number.
   */
  lemma {:induction false} ReadExactly(l: string)
    requires PosixUid(l).Some?
    ensures var f := Split(l, COLON);
            if f[0] != "" && f[1] != "" then UidOf(l) == PosixUid(l) else UidOf(l) == Misread(f)
  {
    hide Split, Strtoul, NonEmpty;
    var f := Split(l, COLON);
    UidFields(l);
    if f[0] != "" && f[1] != "" {
      ReadByPosition(l);
    } else {
      var later := f[3..];
      assert f[2] != "" by { StrtoulEmpty(); }
      assert f == [f[0]] + ([f[1]] + ([f[2]] + later));
      NonEmptyAppend([f[0]], [f[1]] + ([f[2]] + later));
      NonEmptyAppend([f[1]], [f[2]] + later);
      NonEmptyAppend([f[2]], later);
      OnePiece(f[0]);
      OnePiece(f[1]);
      OnePiece(f[2]);
    }
  }

  /** For an ordinary line: the scan sees its UID exactly when it has a password field or its GID is the same. */
  lemma {:induction false} SeenExactly(user: string, password: string, uid: nat, gid: nat, tail: string)
    requires Atom(user) && COLON !in password && uid < ULONG && gid < ULONG
    ensures var l := user + [COLON] + (password + [COLON] + (Decimal(uid) + [COLON] + (Decimal(gid) + [COLON] + tail)));
            PosixUid(l) == Some(uid) && (UidOf(l) == Some(uid) <==> password != "" || gid == uid)
  {
    hide Split, Strtoul, Decimal;
    if password == "" {
      EmptyPassword(user, uid, gid, tail);
    } else {
      var u := Decimal(uid);
      DecimalDigits(uid);
      assert COLON !in u;
      var rest := Decimal(gid) + [COLON] + tail;
      SplitAtFirst(user, COLON, password + [COLON] + (u + [COLON] + rest));
      SplitAtFirst(password, COLON, u + [COLON] + rest);
      SplitAtFirst(u, COLON, rest);
      ThirdField(user, password, u, Split(rest, COLON));
      StrtoulDecimal(uid);
    }
  }

  /** With an empty password field the scan sees the GID instead, and takes the UID for free. */
  lemma {:induction false} EmptyPassword(user: string, uid: nat, gid: nat, tail: string)
    requires Atom(user) && uid < ULONG && gid < ULONG
    ensures var l := user + [COLON] + ("" + [COLON] + (Decimal(uid) + [COLON] + (Decimal(gid) + [COLON] + tail)));
            PosixUid(l) == Some(uid) && UidOf(l) == Some(gid)
  {
    hide Split, Strtoul, Decimal;
    var u, g := Decimal(uid), Decimal(gid);
    DecimalDigits(uid);
    DecimalDigits(gid);
    assert COLON !in u && COLON !in g;
    SplitAtFirst(user, COLON, "" + [COLON] + (u + [COLON] + (g + [COLON] + tail)));
    SplitAtFirst("", COLON, u + [COLON] + (g + [COLON] + tail));
    SplitAtFirst(u, COLON, g + [COLON] + tail);
    SplitAtFirst(g, COLON, tail);
    StrtoulDecimal(uid);
    StrtoulDecimal(gid);
    var rest := [u] + ([g] + Split(tail, COLON));
    NonEmptyAppend([user], [""] + rest);
    NonEmptyAppend([""], rest);
    OnePiece("");
    OnePiece(user);
    NonEmptyAppend([u], [g] + Split(tail, COLON));
    NonEmptyAppend([g], Split(tail, COLON));
    OnePiece(u);
    OnePiece(g);
    assert NonEmpty([user] + ([""] + rest))[2] == g;
  }

  // ----- a final newline does not change a UID

  lemma {:induction false} SkipSpaceNewline(s: string)
    ensures SkipSpace(s + [NL]) == if SkipSpace(s) == "" then "" else SkipSpace(s) + [NL]
  {
    if s == "" {
      assert s + [NL] == [NL] && [NL][1..] == "";
      assert IsSpace([NL][0]);
    } else if IsSpace(s[0]) {
      assert (s + [NL])[1..] == s[1..] + [NL];
      SkipSpaceNewline(s[1..]);
    }
  }

  lemma {:induction false} LeadingNewline(s: string, acc: nat)
    ensures Leading(s + [NL], acc) == Leading(s, acc)
    decreases |s|
  {
    if s == "" {
      assert (s + [NL])[0] == NL;
    } else if IsDigit(s[0]) {
      assert (s + [NL])[1..] == s[1..] + [NL];
      LeadingNewline(s[1..], acc * 10 + (s[0] - '0') as int);
    }
  }

  lemma {:induction false} StrtoulNewline(s: string)
    ensures Strtoul(s + [NL]) == Strtoul(s)
  {
    SkipSpaceNewline(s);
    var t := SkipSpace(s);
    if t != "" {
      hide SkipSpace, Leading;
      assert (t + [NL])[0] == t[0] && (t + [NL])[1..] == t[1..] + [NL];
      LeadingNewline(t, 0);
      LeadingNewline(t[1..], 0);
      assert t[1..] != "" ==> (t[1..] + [NL])[0] == t[1..][0];
    }
  }

  lemma {:induction false} UidNewline(l: string)
    ensures UidOf(l + [NL]) == UidOf(l)
  {
    hide *;
    var front, last := NewlinePieces(l);
    LastField(front, last);
    LastField(front, last + [NL]);
    OnePiece(last);
    OnePiece(last + [NL]);
    StrtoulNewline(last);
    StrtoulEmpty();
    UidFields(l);
    UidFields(l + [NL]);
    if last == "" {
      assert last + [NL] == [NL];
    }
  }

  lemma {:induction false} NewlinePieces(l: string) returns (front: seq<string>, last: string)
    ensures Split(l, COLON) == front + [last] && Split(l + [NL], COLON) == front + [last + [NL]]
  {
    hide Split;
    SplitAppend(l, [NL], COLON);
    SplitNone([NL], COLON);
    var parts := Split(l, COLON);
    front, last := parts[..|parts| - 1], parts[|parts| - 1];
    assert parts == front + [last];
  }

  lemma {:induction false} LastField(front: seq<string>, last: string)
    ensures NonEmpty(front + [last]) == NonEmpty(front) + NonEmpty([last])
  {
    NonEmptyAppend(front, [last]);
  }

  lemma {:induction false} UidFields(l: string)
    ensures var f := NonEmpty(Split(l, COLON)); UidOf(l) == if |f| < 3 then None else Strtoul(f[2])
  {
  }

  lemma {:induction false} StrtoulEmpty()
    ensures Strtoul("") == None && Strtoul([NL]) == None
  {
    StrtoulNewline("");
    assert "" + [NL] == [NL];
  }

  // ----- the steps of a session

  datatype Phase =
    | Waiting
    | Locked
    | Chosen(uid: nat)
    | Written(uid: nat)
    | Leaving
    | Live(uid: nat)
    | Over

  /** The passwd file (a missing one is empty), who holds the lock, and every session by its user name. */
  datatype State = State(passwd: string, lock: Option<string>, phase: map<string, Phase>)

  predicate Holds(p: Phase)
  {
    p.Locked? || p.Chosen? || p.Written? || p.Leaving?
  }

  predicate HasEntry(p: Phase)
  {
    p.Written? || p.Live?
  }

  ghost predicate IsEntry(entry: string, user: string, uid: nat)
  {
    exists home, shell :: NL !in home && NL !in shell && entry == PasswdEntry(user, uid, home, shell)
  }

  /** The scan's result is one that it may have: see `FindFreeUid`. */
  predicate Free(passwd: string, uid: nat)
  {
    UID_MIN <= uid <= UID_MAX && !Takes(Lines(passwd), uid)
  }

  /** One step of the session of `u`, succeeding or failing. */
  ghost predicate Step(s: State, u: string, t: State)
  {
    u in s.phase &&
    match s.phase[u]
    case Waiting => s.lock.None? && t == s.(lock := Some(u), phase := s.phase[u := Locked])
    case Locked =>
      || (exists uid :: Free(s.passwd, uid) && t == s.(phase := s.phase[u := Chosen(uid)]))
      || t == s.(phase := s.phase[u := Leaving])
    case Chosen(uid) =>
      || (exists entry :: IsEntry(entry, u, uid)
                          && t == s.(passwd := Appended(s.passwd, entry), phase := s.phase[u := Written(uid)]))
      || t == s.(phase := s.phase[u := Leaving])
    case Written(uid) =>
      || t == s.(lock := None, phase := s.phase[u := Live(uid)])
      || t == s.(passwd := Removed(s.passwd, u + [COLON]), phase := s.phase[u := Leaving])
    case Leaving => t == s.(lock := None, phase := s.phase[u := Over])
    case Live(uid) => t == s.(passwd := Removed(s.passwd, u + [COLON]), phase := s.phase[u := Over])
    case Over => false
  }

  ghost predicate Initial(s: State)
  {
    s.lock.None? && forall u | u in s.phase :: s.phase[u] == Waiting && Atom(u) && |u| < 64
  }

  ghost predicate Next(s: State, t: State)
  {
    exists u :: Step(s, u, t)
  }

  /** Any interleaving of any number of sessions. */
  ghost predicate Run(states: seq<State>)
  {
    |states| > 0 && Initial(states[0])
    && forall k | 0 < k < |states| :: Next(states[k - 1], states[k])
  }

  // ----- the invariant

  /** The UID is that of a line of `user`, and of no other line. */
  ghost predicate Owned(ls: seq<string>, user: string, uid: nat)
  {
    && (exists l | l in ls :: UidOf(l) == Some(uid))
    && (forall l | l in ls && UidOf(l) == Some(uid) :: user + [COLON] <= l)
  }

  ghost predicate Untaken(ls: seq<string>, uid: nat)
  {
    forall l | l in ls :: UidOf(l) != Some(uid)
  }

  ghost predicate SessionOk(s: State, u: string, p: Phase)
  {
    && Atom(u) && |u| < 64
    && (Holds(p) <==> s.lock == Some(u))
    && (HasEntry(p) ==> HostFiles.Closed(s.passwd) && Owned(Lines(s.passwd), u, p.uid))
    && (p.Chosen? ==> Untaken(Lines(s.passwd), p.uid))
    && (p.Chosen? || HasEntry(p) ==> UID_MIN <= p.uid <= UID_MAX)
  }

  ghost predicate Inv(s: State)
  {
    (s.lock.Some? ==> s.lock.value in s.phase) && forall u | u in s.phase :: SessionOk(s, u, s.phase[u])
  }

  // ----- what the rewrites do to other sessions' lines

  lemma {:induction false} KeepMember(ls: seq<string>, prefix: string, l: string)
    ensures l in KeepLines(ls, prefix) <==> l in ls && !(prefix <= l)
  {
    if ls != [] {
      KeepMember(ls[1..], prefix, l);
      assert ls == [ls[0]] + ls[1..];
    }
  }

  lemma {:induction false} KeepWhole(ls: seq<string>, prefix: string)
    requires AllWhole(ls)
    ensures AllWhole(KeepLines(ls, prefix))
  {
    if ls != [] {
      KeepWhole(ls[1..], prefix);
    }
  }

  lemma {:induction false} RemovedLines(s: string, prefix: string)
    requires HostFiles.Closed(s)
    ensures HostFiles.Closed(Removed(s, prefix)) && Lines(Removed(s, prefix)) == KeepLines(Lines(s), prefix)
  {
    hide Lines, Concat, HostFiles.Closed, Whole, KeepLines;
    ConcatOfLines(s);
    KeepWhole(Lines(s), prefix);
    LinesOfConcat(KeepLines(Lines(s), prefix));
  }

  /** Two names cannot both begin a line. */
  lemma {:induction false} OneName(a: string, b: string, l: string)
    requires Atom(a) && Atom(b) && a + [COLON] <= l && b + [COLON] <= l
    ensures a == b
  {
    assert l[..|a|] == a && l[|a|] == (a + [COLON])[|a|] == COLON;
    assert l[..|b|] == b && l[|b|] == (b + [COLON])[|b|] == COLON;
  }

  /** A removal frees UIDs and leaves the lines of others alone. */
  lemma {:induction false} RemovalKeeps(s: string, u: string, v: string, uid: nat)
    requires HostFiles.Closed(s) && Atom(u) && Atom(v) && u != v
    ensures Owned(Lines(s), v, uid) ==> Owned(Lines(Removed(s, u + [COLON])), v, uid)
    ensures Untaken(Lines(s), uid) ==> Untaken(Lines(Removed(s, u + [COLON])), uid)
  {
    hide Lines, HostFiles.Closed, Removed, UidOf, Atom;
    var ls, prefix := Lines(s), u + [COLON];
    RemovedLines(s, prefix);
    forall l ensures l in KeepLines(ls, prefix) <==> l in ls && !(prefix <= l) {
      KeepMember(ls, prefix, l);
    }
    if Owned(ls, v, uid) {
      var l :| l in ls && UidOf(l) == Some(uid);
      if prefix <= l {
        OneName(u, v, l);
      }
      assert l in KeepLines(ls, prefix);
    }
  }

  /** Closing the last line changes no UID and no name. */
  lemma {:induction false} TerminatedLines(s: string, k: nat)
    ensures |Lines(Terminated(s))| == |Lines(s)|
    ensures k < |Lines(s)| ==> var l := Lines(s)[k]; Lines(Terminated(s))[k] == l || Lines(Terminated(s))[k] == l + [NL]
    decreases |s|
  {
    if !HostFiles.Closed(s) {
      var found, head, rest := CutLine(s);
      if found {
        TerminatedLines(rest, if k > 0 then k - 1 else 0);
        hide Lines, HostFiles.Closed, Whole;
        FirstLine(head, rest + [NL]);
        CatAssoc(head, rest, [NL]);
      } else {
        OnlyLine(s);
      }
    }
  }

  lemma {:induction false} OnlyLine(s: string)
    requires NL !in s
    ensures Lines(s + [NL]) == [s + [NL]]
  {
    var l := s + [NL];
    assert l[..|s|] == s;
    FirstLine(l, "");
    assert l + "" == l;
  }

  lemma {:induction false} TerminatedKeeps(s: string, v: string, uid: nat)
    ensures Owned(Lines(s), v, uid) ==> Owned(Lines(Terminated(s)), v, uid)
    ensures Untaken(Lines(s), uid) ==> Untaken(Lines(Terminated(s)), uid)
  {
    hide Lines, Terminated, UidOf;
    var ls, ts := Lines(s), Lines(Terminated(s));
    TerminatedLines(s, 0);
    forall k | 0 <= k < |ls| ensures UidOf(ts[k]) == UidOf(ls[k]) && (v + [COLON] <= ls[k] ==> v + [COLON] <= ts[k]) {
      TerminatedLines(s, k);
      UidNewline(ls[k]);
    }
    if Owned(ls, v, uid) {
      var l :| l in ls && UidOf(l) == Some(uid);
      var k :| 0 <= k < |ls| && ls[k] == l;
      assert ts[k] in ts;
    }
  }

  /** Appending an entry with a UID nobody has leaves the others theirs. */
  lemma {:induction false} AppendKeeps(s: string, entry: string, v: string, vid: nat, u: string, uid: nat)
    requires NL !in entry && UidOf(entry + [NL]) == Some(uid) && u + [COLON] <= entry + [NL]
    ensures HostFiles.Closed(Appended(s, entry))
    ensures vid != uid && Owned(Lines(s), v, vid) ==> Owned(Lines(Appended(s, entry)), v, vid)
    ensures Untaken(Lines(s), uid) ==> Owned(Lines(Appended(s, entry)), u, uid)
  {
    hide Lines, HostFiles.Closed, Terminated, UidOf;
    var base, l := Lines(Terminated(s)), entry + [NL];
    assert Whole(l) by { assert l[..|entry|] == entry; }
    LinesAppend(Terminated(s), l);
    TerminatedKeeps(s, v, vid);
    TerminatedKeeps(s, u, uid);
    var ls := Lines(Appended(s, entry));
    assert ls == base + [l];
    assert l in ls;
    assert forall k | k in ls :: k in base || k == l;
    if Owned(base, v, vid) {
      var k :| k in base && UidOf(k) == Some(vid);
      assert k in ls;
    }
  }

  lemma {:induction false} EntryFits(user: string, uid: nat)
    requires |user| < 64 && uid <= UID_MAX
    ensures |EntryFront(user, uid)| <= ENTRY_MAX
  {
    DecimalSize(uid, 5);
  }

  lemma {:induction false} DecimalSize(n: nat, size: nat)
    requires size >= 1 && n < Pow10(size)
    ensures |Decimal(n)| <= size
  {
    if n >= 10 {
      DecimalSize(n / 10, size - 1);
    }
  }

  function Pow10(n: nat): (r: nat)
    ensures r >= 1
  {
    if n == 0 then 1 else 10 * Pow10(n - 1)
  }

  /** What an entry looks like in the file. */
  lemma {:induction false} EntryLine(entry: string, u: string, uid: nat)
    requires IsEntry(entry, u, uid) && Atom(u) && |u| < 64 && uid <= UID_MAX
    ensures NL !in entry && UidOf(entry + [NL]) == Some(uid) && u + [COLON] <= entry + [NL]
  {
    var home, shell :| NL !in home && NL !in shell && entry == PasswdEntry(u, uid, home, shell);
    EntryFits(u, uid);
    var tail := EntryTail(u, uid, home, shell);
    hide PasswdEntry, UidOf;
    EntryUid(u, uid, tail + [NL]);
    CatAssoc(EntryFront(u, uid), tail, [NL]);
    DecimalDigits(uid);
    assert NL !in Decimal(uid);
  }

  // ----- every step keeps the invariant

  lemma {:induction false} Others(s: State, u: string, t: State, v: string)
    requires Inv(s) && Step(s, u, t) && v in s.phase && v != u
    ensures v in t.phase && t.phase[v] == s.phase[v]
    ensures Holds(s.phase[v]) <==> t.lock == Some(v)
  {
    hide Free, IsEntry, Appended, Removed, Owned, Untaken, Lines, Atom, HostFiles.Closed;
    assert SessionOk(s, u, s.phase[u]) && SessionOk(s, v, s.phase[v]);
  }

  lemma {:induction false} HoldsTheLock(s: State, u: string, v: string)
    requires Inv(s) && u in s.phase && v in s.phase && u != v && Holds(s.phase[u])
    ensures !Holds(s.phase[v])
  {
    assert SessionOk(s, u, s.phase[u]) && SessionOk(s, v, s.phase[v]);
  }

  lemma {:induction false} SessionFacts(s: State, u: string)
    requires Inv(s) && u in s.phase
    ensures SessionOk(s, u, s.phase[u])
  {
  }

  lemma {:induction false} OtherUids(s: State, u: string, v: string)
    requires Inv(s) && u in s.phase && v in s.phase && s.phase[u].Chosen? && HasEntry(s.phase[v])
    ensures s.phase[v].uid != s.phase[u].uid
  {
    hide UidOf, Lines, Atom;
    SessionFacts(s, u);
    SessionFacts(s, v);
  }

  /** A session that does not move keeps what is claimed of it. */
  lemma {:induction false} OtherOk(s: State, u: string, t: State, v: string)
    requires Inv(s) && Step(s, u, t) && v in s.phase && v != u
    ensures v in t.phase && SessionOk(t, v, t.phase[v])
  {
    hide Free, IsEntry, Appended, Removed, Owned, Untaken, Lines, Atom, HostFiles.Closed, Inv;
    Others(s, u, t, v);
    SessionFacts(s, u);
    SessionFacts(s, v);
    var p, q := s.phase[u], s.phase[v];
    if t.passwd != s.passwd {
      if p.Chosen? {
        var entry :| IsEntry(entry, u, p.uid) && t.passwd == Appended(s.passwd, entry);
        EntryLine(entry, u, p.uid);
        HoldsTheLock(s, u, v);
        if HasEntry(q) {
          OtherUids(s, u, v);
          AppendKeeps(s.passwd, entry, v, q.uid, u, p.uid);
        }
      } else {
        RemovedLines(s.passwd, u + [COLON]);
        if q.Chosen? || HasEntry(q) {
          RemovalKeeps(s.passwd, u, v, q.uid);
        }
      }
    }
  }

  lemma {:induction false} UntakenIs(ls: seq<string>, uid: nat)
    ensures Untaken(ls, uid) <==> !Takes(ls, uid)
  {
    hide UidOf;
    if !Untaken(ls, uid) {
      var l :| l in ls && UidOf(l) == Some(uid);
      var k :| 0 <= k < |ls| && ls[k] == l;
      assert UidOf(ls[k]) == Some(uid);
    }
  }

  lemma {:induction false} MoverOk(s: State, u: string, t: State)
    requires Inv(s) && Step(s, u, t)
    ensures u in t.phase && SessionOk(t, u, t.phase[u])
  {
    hide IsEntry, Appended, Removed, Owned, Untaken, Lines, Atom, HostFiles.Closed, Inv, Takes;
    SessionFacts(s, u);
    match s.phase[u]
    case Locked =>
      if t.phase[u].Chosen? {
        UntakenIs(Lines(s.passwd), t.phase[u].uid);
      }
    case Chosen(uid) =>
      if t.phase[u].Written? {
        var entry :| IsEntry(entry, u, uid) && t.passwd == Appended(s.passwd, entry);
        EntryLine(entry, u, uid);
        AppendKeeps(s.passwd, entry, u, uid, u, uid);
      }
    case _ =>
  }

  lemma {:induction false} StepKeepsInv(s: State, u: string, t: State)
    requires Inv(s) && Step(s, u, t)
    ensures Inv(t)
  {
    forall v | v in t.phase ensures SessionOk(t, v, t.phase[v]) {
      if v == u {
        MoverOk(s, u, t);
      } else {
        OtherOk(s, u, t, v);
      }
    }
  }

  lemma {:induction false} RunKeepsInv(states: seq<State>, k: nat)
    requires Run(states) && k < |states|
    ensures Inv(states[k])
  {
    hide Step, Owned, Untaken, Lines, Atom, HostFiles.Closed;
    if k > 0 {
      RunKeepsInv(states, k - 1);
      assert Next(states[k - 1], states[k]);
      var u :| Step(states[k - 1], u, states[k]);
      hide Inv;
      StepKeepsInv(states[k - 1], u, states[k]);
    }
  }

  // ----- what that means

  predicate HasUid(p: Phase)
  {
    p.Chosen? || HasEntry(p)
  }

  /** In every state of every run, a session's UID is from the reserved range. */
  lemma {:induction false} UidsReserved(states: seq<State>, k: nat, u: string)
    requires Run(states) && k < |states| && u in states[k].phase && HasUid(states[k].phase[u])
    ensures 60000 <= states[k].phase[u].uid <= 65000
  {
    hide UidOf, Lines, Atom, Run, HostFiles.Closed, Owned, Untaken;
    RunKeepsInv(states, k);
    assert SessionOk(states[k], u, states[k].phase[u]);
  }

  /** In every state of every run, no two sessions have the same UID. */
  lemma {:induction false} UidsDistinct(states: seq<State>, k: nat, u: string, v: string)
    requires Run(states) && k < |states| && u in states[k].phase && v in states[k].phase && u != v
    requires HasUid(states[k].phase[u]) && HasUid(states[k].phase[v])
    ensures states[k].phase[u].uid != states[k].phase[v].uid
  {
    hide UidOf, Lines, Atom, Run, HostFiles.Closed;
    RunKeepsInv(states, k);
    var s := states[k];
    SessionFacts(s, u);
    SessionFacts(s, v);
    if s.phase[u].uid == s.phase[v].uid && HasEntry(s.phase[u]) && HasEntry(s.phase[v]) {
      var l :| l in Lines(s.passwd) && UidOf(l) == Some(s.phase[u].uid);
      OneName(u, v, l);
    }
  }

  /**
   ... and no session has the UID of a passwd line of someone else, as long as that
   line's password field is not empty.
   */
  lemma {:induction false} UidsNotInPasswd(states: seq<State>, k: nat, u: string, l: string)
    requires Run(states) && k < |states| && u in states[k].phase && HasUid(states[k].phase[u])
    requires l in Lines(states[k].passwd) && PosixUid(l) == Some(states[k].phase[u].uid)
    requires Split(l, COLON)[0] != "" && |Split(l, COLON)| >= 3 && Split(l, COLON)[1] != ""
    ensures HasEntry(states[k].phase[u]) && u + [COLON] <= l
  {
    hide UidOf, PosixUid, Lines, Atom, Run, HostFiles.Closed, Split;
    RunKeepsInv(states, k);
    SessionFacts(states[k], u);
    ReadByPosition(l);
  }

  /**
   A session shares its UID with a passwd line that is not its own only if the scan does
   not see that line's UID: its name or password field is empty, and the field read in
   its stead (see `ReadExactly`) is none or another number.
   */
  lemma {:induction false} CollisionIsHidden(states: seq<State>, k: nat, u: string, l: string)
    requires Run(states) && k < |states| && u in states[k].phase && HasUid(states[k].phase[u])
    requires l in Lines(states[k].passwd) && PosixUid(l) == Some(states[k].phase[u].uid)
    requires !(HasEntry(states[k].phase[u]) && u + [COLON] <= l)
    ensures Split(l, COLON)[0] == "" || Split(l, COLON)[1] == ""
    ensures Misread(Split(l, COLON)) != PosixUid(l)
  {
    hide UidOf, Lines, Atom, Run, HostFiles.Closed, Split, Strtoul, Misread;
    RunKeepsInv(states, k);
    SessionFacts(states[k], u);
    ReadExactly(l);
  }

  /** A passwd file of one line, without a password, whose UID is the first of the range. */
  function Hiding(user: string, gid: nat, tail: string): (s: string)
  {
    user + [COLON] + ("" + [COLON] + (Decimal(UID_MIN) + [COLON] + (Decimal(gid) + [COLON] + tail)))
  }

  /** With such a line a session is given the UID that the line already has. */
  lemma {:induction false} HiddenUidGiven(user: string, gid: nat, tail: string, u: string) returns (states: seq<State>)
    requires Atom(user) && NL !in tail && gid < ULONG && gid != UID_MIN && Atom(u) && |u| < 64
    ensures Run(states) && |states| == 3 && u in states[2].phase && states[2].phase[u] == Chosen(UID_MIN)
    ensures var l := Hiding(user, gid, tail) + [NL];
            states[2].passwd == l && Lines(l) == [l] && PosixUid(l) == Some(UID_MIN)
  {
    var line := Hiding(user, gid, tail);
    var l := line + [NL];
    EmptyPassword(user, UID_MIN, gid, tail + [NL]);
    assert l == Hiding(user, gid, tail + [NL]);
    HidingLine(user, gid, tail);
    OnlyLine(line);
    hide UidOf, PosixUid, Lines, Hiding, Decimal, Atom;
    UntakenIs([l], UID_MIN);
    var s0 := State(l, None, map[u := Waiting]);
    var s1 := s0.(lock := Some(u), phase := s0.phase[u := Locked]);
    var s2 := s1.(phase := s1.phase[u := Chosen(UID_MIN)]);
    assert Free(l, UID_MIN);
    assert Step(s0, u, s1) && Step(s1, u, s2);
    hide Step;
    states := [s0, s1, s2];
    assert Next(s0, s1) && Next(s1, s2);
  }

  lemma {:induction false} HidingLine(user: string, gid: nat, tail: string)
    requires Atom(user) && NL !in tail
    ensures NL !in Hiding(user, gid, tail)
  {
    hide Decimal;
    DecimalDigits(UID_MIN);
    DecimalDigits(gid);
    assert NL !in Decimal(UID_MIN) && NL !in Decimal(gid);
  }
}
