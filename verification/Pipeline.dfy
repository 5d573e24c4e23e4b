/**
 The node-terminal session pipeline: ordered setup steps on the host, each with a
 completion flag, and one rollback in reverse order, whichever step failed and
 when the session ends. What the kernel does is taken as steps that succeed or
 fail; the account files are rewritten as `HostFiles` says.
 */
module Pipeline {
  import opened Wrappers
  import opened Text
  import opened HostFiles
  import opened Uids
  import opened UidLock

  const PUBLISH_BASE: string := "/var/lib/node-terminal-shim"
  const HOME_BASE: string := "/home/"

  // ----- the host and the session

  datatype File = Missing | Present(text: string)

  function TextOf(f: File): (s: string)
  {
    if f.Missing? then "" else f.text
  }

  /**
   What the pipeline touches: account files, directories (`full` are those with something
   in them), mounts, files, the UID lock, and the two marker files.
   */
  datatype Host = Host(
    passwd: File, shadow: File, group: File, dirs: set<string>, full: set<string>, mounts: multiset<string>,
    files: set<string>, locked: bool, active: bool, ended: bool)

  /** `session_ctx_t`: names, what was allocated, and the completion flags. */
  datatype Ctx = Ctx(
    user: string, home: string, ctty: string, binary: string, uid: nat, inherited: seq<string>, lockFd: bool,
    donePublish: bool, doneCtty: bool, doneAlloc: bool, doneIdentity: bool, doneInherit: bool, doneHome: bool,
    doneMount: bool)

  function Fresh(c: Ctx): (r: Ctx)
  {
    c.(inherited := [], lockFd := false, donePublish := false, doneCtty := false, doneAlloc := false,
       doneIdentity := false, doneInherit := false, doneHome := false, doneMount := false)
  }

  // ----- account files

  function Mark(user: string): (r: string)
  {
    user + [COLON]
  }

  function AppendTo(f: File, entry: string): (r: File)
  {
    Present(Appended(TextOf(f), entry))
  }

  function RemoveFrom(f: File, user: string): (r: File)
  {
    Present(Removed(TextOf(f), Mark(user)))
  }

  /** Joining or leaving groups rewrites the file once for each; for none, not at all. */
  function EditGroups(f: File, groups: seq<string>, user: string, add: bool): (r: File)
  {
    if groups == [] then f else Present(EditedAll(TextOf(f), groups, user, add))
  }

  function GroupEntry(user: string, gid: nat): (r: string)
  {
    user + [COLON] + "x" + [COLON] + Decimal(gid) + [COLON]
  }

  // ----- rollback

  /** A mount, or a file, that the session made if it got that far. */
  function Mine(done: bool, name: string): (r: multiset<string>)
  {
    if done then multiset{name} else multiset{}
  }

  function Ours(done: bool, name: string): (r: set<string>)
  {
    if done then {name} else {}
  }

  function UndoMount(h: Host, c: Ctx): (r: Host)
  {
    h.(mounts := h.mounts - Mine(c.doneMount, c.home))
  }

  /** `rmdir` refuses a mount point and a directory with something in it. */
  function Rmdir(h: Host, dir: string): (r: Host)
  {
    h.(dirs := h.dirs - Ours(dir !in h.mounts && dir !in h.full, dir))
  }

  function UndoHome(h: Host, c: Ctx): (r: Host)
  {
    if c.doneHome then Rmdir(h, c.home) else h
  }

  function UndoGroups(h: Host, c: Ctx): (r: Host)
  {
    if c.doneInherit then h.(group := EditGroups(h.group, c.inherited, c.user, false)) else h
  }

  function UndoIdentity(h: Host, c: Ctx): (r: Host)
  {
    if c.doneIdentity then
      h.(passwd := RemoveFrom(h.passwd, c.user), shadow := RemoveFrom(h.shadow, c.user),
         group := RemoveFrom(h.group, c.user))
    else h
  }

  function UndoLock(h: Host, c: Ctx): (r: Host)
  {
    h.(locked := h.locked && !(c.doneAlloc && c.lockFd))
  }

  function UndoCtty(h: Host, c: Ctx): (r: Host)
  {
    h.(mounts := h.mounts - Mine(c.doneCtty, c.ctty), files := h.files - Ours(c.doneCtty, c.ctty))
  }

  function UndoPublish(h: Host, c: Ctx): (r: Host)
  {
    h.(files := h.files - Ours(c.donePublish, c.binary))
  }

  function RolledBack(h: Host, c: Ctx): (r: Host)
  {
    UndoPublish(UndoCtty(UndoLock(UndoIdentity(UndoGroups(UndoHome(UndoMount(h, c), c), c), c), c), c), c)
  }

  // ----- what rollback restores

  /** The file as it was, or with a final newline added; a missing one may now be empty. */
  predicate RestoredFile(was: File, now: File)
  {
    now == was || now == Present(Terminated(TextOf(was)))
  }

  /** A directory that `rmdir` would not remove. */
  predicate Keeps(h: Host, dir: string)
  {
    dir in h.full || dir in h.mounts
  }

  /**
   Everything as it was, and only the directory for published binaries may stay behind.
   The home is there again if it was, unless the setup got to it (`tried`) and it was one
   that `rmdir` removes.
   */
  predicate Restored(was: Host, now: Host, home: string, tried: bool)
  {
    && RestoredFile(was.passwd, now.passwd) && RestoredFile(was.shadow, now.shadow)
    && RestoredFile(was.group, now.group)
    && was.dirs - {home} <= now.dirs - {home} <= was.dirs + {PUBLISH_BASE}
    && (home in now.dirs <==> home in was.dirs && (tried ==> Keeps(was, home)))
    && now.full == was.full && now.mounts == was.mounts && now.files == was.files && now.locked == was.locked
    && (now.active ==> was.active) && (now.ended ==> was.ended)
  }

  /** The session's tty alias and binary are new to the host, and the UID lock is free; the home need not be new. */
  ghost predicate NewPlaces(was: Host, c: Ctx)
  {
    && (Keeps(was, c.home) ==> c.home in was.dirs) && c.home != PUBLISH_BASE
    && c.ctty !in was.files && c.ctty !in was.mounts && c.binary !in was.files
    && c.ctty != c.home && c.ctty != c.binary
    && !was.locked
  }

  /** The names are new to the host, and no group line that may be edited is lost by it. */
  ghost predicate Clean(h: Host, c: Ctx, groups: seq<string>)
  {
    && Atom(c.user) && |c.user| < 64
    && Lacks(TextOf(h.passwd), Mark(c.user)) && Lacks(TextOf(h.shadow), Mark(c.user))
    && Lacks(TextOf(h.group), Mark(c.user))
    && NewPlaces(h, c)
    && (forall k | 0 <= k < |groups| :: Field(groups[k]))
    && AllRestorable(Lines(Terminated(TextOf(h.group))), groups, c.user)
  }

  /** An account file that the session's entry was appended to. */
  ghost predicate Entered(was: File, now: File, user: string)
  {
    exists entry :: Mark(user) <= entry && NL !in entry && now == AppendTo(was, entry)
  }

  /** The same of the passwd file: the entry has the session's UID. */
  ghost predicate EnteredUid(was: File, now: File, user: string, uid: nat)
  {
    exists entry ::
      Mark(user) <= entry && NL !in entry && UidOf(entry + [NL]) == Some(uid) && now == AppendTo(was, entry)
  }

  ghost predicate Accounts(was: Host, h: Host, c: Ctx, groups: seq<string>)
  {
    && (c.doneInherit ==> c.doneIdentity)
    && (c.inherited != [] ==> c.doneInherit)
    && (forall k | 0 <= k < |c.inherited| :: c.inherited[k] in groups)
    && if c.doneIdentity then
         && EnteredUid(was.passwd, h.passwd, c.user, c.uid) && Entered(was.shadow, h.shadow, c.user)
         && h.group == EditGroups(AppendTo(was.group, GroupEntry(c.user, c.uid)), c.inherited, c.user, true)
       else
         RestoredFile(was.passwd, h.passwd) && RestoredFile(was.shadow, h.shadow) && RestoredFile(was.group, h.group)
  }

  /** `tried`: the setup got to the home. */
  predicate Places(was: Host, h: Host, c: Ctx, tried: bool)
  {
    && was.dirs - {c.home} <= h.dirs - {c.home} <= was.dirs + {PUBLISH_BASE} && h.full == was.full
    && (c.doneHome ==> tried && c.home in h.dirs)
    && (!c.doneHome ==> (c.home in h.dirs <==> c.home in was.dirs && (tried ==> Keeps(was, c.home))))
    && h.mounts == was.mounts + Mine(c.doneMount, c.home) + Mine(c.doneCtty, c.ctty)
    && h.files == was.files + Ours(c.doneCtty, c.ctty) + Ours(c.donePublish, c.binary)
    && h.locked == c.lockFd && (c.lockFd ==> c.doneAlloc)
    && (h.active ==> was.active) && (h.ended ==> was.ended)
  }

  /** At this point a rollback restores the host. */
  ghost predicate Recoverable(was: Host, h: Host, c: Ctx, groups: seq<string>, tried: bool)
  {
    Places(was, h, c, tried) && Accounts(was, h, c, groups)
  }

  lemma {:induction false} EntryRemoved(was: File, now: File, user: string)
    requires Entered(was, now, user) && Lacks(TextOf(was), Mark(user))
    ensures RestoredFile(was, RemoveFrom(now, user))
  {
    hide Lacks, Appended, Removed, Mark, Terminated;
    var entry :| Mark(user) <= entry && NL !in entry && now == AppendTo(was, entry);
    RemoveUndoesAppend(TextOf(was), entry, Mark(user));
  }

  /** The session's own group line is canonical. */
  lemma {:induction false} OwnGroupLine(user: string, gid: nat)
    requires Atom(user)
    ensures var e := GroupEntry(user, gid);
            && Mark(user) <= e && NL !in e && e + [NL] == RowText(Row(user, "x", Decimal(gid), []))
            && RowOk(Row(user, "x", Decimal(gid), []))
  {
    hide Decimal;
    DecimalDigits(gid);
    var d := Decimal(gid);
    assert COLON !in d && NL !in d;
    var e := GroupEntry(user, gid);
    assert e[..|user| + 1] == Mark(user);
    JoinOne<char>("", COMMA);
    assert e + "" == e;
  }

  lemma {:induction false} GroupLinesRestorable(text: string, groups: seq<string>, user: string, gid: nat)
    requires Atom(user) && |user| < 64 && gid <= UID_MAX && AllRestorable(Lines(Terminated(text)), groups, user)
    ensures var t := Appended(text, GroupEntry(user, gid)); HostFiles.Closed(t) && AllRestorable(Lines(t), groups, user)
  {
    hide Lines, Terminated, HostFiles.Closed, Restorable, Decimal, RowText, GroupEntry;
    OwnGroupLine(user, gid);
    var row := Row(user, "x", Decimal(gid), []);
    RowRead(row);
    LinesAppend(Terminated(text), GroupEntry(user, gid) + [NL]);
    OwnRestorable(row, groups, user);
  }

  lemma {:induction false} OwnRestorable(row: Row, groups: seq<string>, user: string)
    requires RowOk(row) && row.members == [] && |user| < 64
    ensures Restorable(RowText(row), groups, user)
  {
    hide Fields, RowText, RowOk, Roomy;
    OwnRoomy(row, user);
  }

  lemma {:induction false} OwnRoomy(row: Row, user: string)
    requires RowOk(row) && row.members == [] && |user| < 64
    ensures Roomy(RowText(row), user)
  {
    RowRead(row);
    hide Fields, RowText, RowOk;
    assert [] + [user] == [user] && [user][1..] == [];
    assert Size([user]) == |user| + 1;
  }

  /** Leaving the groups and removing the entry restores the group file. */
  lemma {:induction false} GroupRestored(was: File, groups: seq<string>, some: seq<string>, user: string, gid: nat)
    requires Atom(user) && |user| < 64 && gid <= UID_MAX && Lacks(TextOf(was), Mark(user))
    requires AllRestorable(Lines(Terminated(TextOf(was))), groups, user)
    requires (forall k | 0 <= k < |groups| :: Field(groups[k])) && forall k | 0 <= k < |some| :: some[k] in groups
    ensures var f := EditGroups(AppendTo(was, GroupEntry(user, gid)), some, user, true);
            RestoredFile(was, RemoveFrom(EditGroups(f, some, user, false), user))
  {
    hide Lines, Lacks, Terminated, HostFiles.Closed, AllRestorable, Appended, EditedAll, RestoredFile, RemoveFrom,
         GroupEntry, Mark, Atom, Field;
    GroupLinesRestorable(TextOf(was), groups, user, gid);
    LeaveUndoesJoin(Appended(TextOf(was), GroupEntry(user, gid)), groups, some, user);
    OwnGroupLine(user, gid);
    var now := AppendTo(was, GroupEntry(user, gid));
    assert Entered(was, now, user);
    EntryRemoved(was, now, user);
  }

  /** From any point of the setup, rolling back restores the host. */
  lemma {:induction false} RollbackRestores(was: Host, h: Host, c: Ctx, groups: seq<string>, tried: bool)
    requires Clean(was, c, groups) && Recoverable(was, h, c, groups, tried) && c.uid <= UID_MAX
    ensures Restored(was, RolledBack(h, c), c.home, tried)
  {
    hide Lines, Lacks, Terminated, AllRestorable, RestoredFile, RemoveFrom, EditGroups, AppendTo, Entered,
         EnteredUid, Mark, Atom, Places;
    if c.doneIdentity {
      EnteredUidIs(was.passwd, h.passwd, c.user, c.uid);
      EntryRemoved(was.passwd, h.passwd, c.user);
      EntryRemoved(was.shadow, h.shadow, c.user);
      GroupRestored(was.group, groups, c.inherited, c.user, c.uid);
      NoGroups(h.group, c.user);
    }
    PlacesRestored(was, h, c, groups, tried);
  }

  lemma {:induction false} EnteredUidIs(was: File, now: File, user: string, uid: nat)
    requires EnteredUid(was, now, user, uid)
    ensures Entered(was, now, user)
  {
    hide AppendTo, Mark, UidOf;
  }

  /** The UID of a live session is that of its own passwd line and of no other. */
  lemma {:induction false} LiveUid(was: File, now: File, user: string, uid: nat)
    requires EnteredUid(was, now, user, uid) && Free(TextOf(was), uid)
    ensures Owned(Lines(TextOf(now)), user, uid)
  {
    hide Lines, UidOf, Owned, Untaken, Appended, HostFiles.Closed;
    var entry :| Mark(user) <= entry && NL !in entry && UidOf(entry + [NL]) == Some(uid) && now == AppendTo(was, entry);
    UntakenIs(Lines(TextOf(was)), uid);
    AppendKeeps(TextOf(was), entry, user, uid, user, uid);
  }

  lemma {:induction false} NoGroups(f: File, user: string)
    ensures EditGroups(f, [], user, false) == f
  {
  }

  lemma {:induction false} PlacesRestored(was: Host, h: Host, c: Ctx, groups: seq<string>, tried: bool)
    requires Clean(was, c, groups) && Places(was, h, c, tried)
    ensures var r := RolledBack(h, c);
            && was.dirs - {c.home} <= r.dirs - {c.home} <= was.dirs + {PUBLISH_BASE}
            && (c.home in r.dirs <==> c.home in was.dirs && (tried ==> Keeps(was, c.home)))
            && r.full == was.full && r.mounts == was.mounts && r.files == was.files && r.locked == was.locked
            && (r.active ==> was.active) && (r.ended ==> was.ended)
  {
    hide *;
    RolledBackPlaces(h, c);
    CleanPlaces(was, c, groups);
    MountsRestored(was, h, c, tried);
    HomeRestored(was, h, c, tried);
    FilesRestored(was, h, c, tried);
  }

  /** Whether rollback finds the home removable. */
  predicate Removes(h: Host, c: Ctx)
  {
    c.doneHome && c.home !in h.mounts - Mine(c.doneMount, c.home) && c.home !in h.full
  }

  lemma {:induction false} RolledBackPlaces(h: Host, c: Ctx)
    ensures var r := RolledBack(h, c);
            && r.mounts == h.mounts - Mine(c.doneMount, c.home) - Mine(c.doneCtty, c.ctty)
            && r.files == h.files - Ours(c.doneCtty, c.ctty) - Ours(c.donePublish, c.binary)
            && r.dirs == h.dirs - Ours(Removes(h, c), c.home) && r.full == h.full
            && r.locked == (h.locked && !(c.doneAlloc && c.lockFd)) && r.active == h.active && r.ended == h.ended
  {
    hide RemoveFrom, EditGroups, Mine;
    assert h.dirs - {} == h.dirs;
  }

  lemma {:induction false} CleanPlaces(was: Host, c: Ctx, groups: seq<string>)
    requires Clean(was, c, groups)
    ensures NewPlaces(was, c)
  {
    hide Lacks, AllRestorable, Atom, NewPlaces;
  }

  lemma {:induction false} MountsRestored(was: Host, h: Host, c: Ctx, tried: bool)
    requires NewPlaces(was, c) && Places(was, h, c, tried)
    ensures h.mounts - Mine(c.doneMount, c.home) - Mine(c.doneCtty, c.ctty) == was.mounts
    ensures c.home in h.mounts - Mine(c.doneMount, c.home) <==> c.home in was.mounts
    ensures (h.locked && !(c.doneAlloc && c.lockFd)) == was.locked
    ensures (h.active ==> was.active) && (h.ended ==> was.ended) && h.full == was.full
  {
  }

  lemma {:induction false} HomeRestored(was: Host, h: Host, c: Ctx, tried: bool)
    requires NewPlaces(was, c) && Places(was, h, c, tried)
    ensures var dirs := h.dirs - Ours(Removes(h, c), c.home);
            && was.dirs - {c.home} <= dirs - {c.home} <= was.dirs + {PUBLISH_BASE}
            && (c.home in dirs <==> c.home in was.dirs && (tried ==> Keeps(was, c.home)))
  {
    MountsRestored(was, h, c, tried);
  }

  lemma {:induction false} FilesRestored(was: Host, h: Host, c: Ctx, tried: bool)
    requires NewPlaces(was, c) && Places(was, h, c, tried)
    ensures h.files - Ours(c.doneCtty, c.ctty) - Ours(c.donePublish, c.binary) == was.files
  {
  }

  /** What `Restored` says of the home, as an equivalence. */
  lemma {:induction false} HomeBack(was: Host, now: Host, home: string, tried: bool)
    requires Restored(was, now, home, tried)
    ensures tried ==> ((home in now.dirs <==> home in was.dirs) <==> home !in was.dirs || Keeps(was, home))
    ensures !tried ==> (home in now.dirs <==> home in was.dirs)
  {
    hide RestoredFile;
  }

  // ----- the pipeline

  /** How the system calls and rewrites of one run turn out, and what they find. */
  datatype Luck = Luck(
    capture: bool, captureTty: bool, enter: bool, publishDir: bool, publish: bool, resolve: bool, openTty: bool,
    moveTty: bool, lock: bool, scan: bool, uid: nat, shell: string, day: nat, passwd: bool, group: bool, shadow: bool,
    found: seq<string>, adds: seq<bool>, mkdir: bool, chown: bool, mount: bool, marker: bool)

  /** `identity_resolve_username`: a name that passwd already has is replaced, and the home with it. */
  function ResolvedUser(h: Host, c: Ctx, fallback: string): (r: Ctx)
  {
    if Lacks(TextOf(h.passwd), Mark(c.user)) then c else c.(user := fallback, home := HOME_BASE + fallback)
  }

  function ShadowEntry(user: string, day: nat): (r: string)
  {
    user + ":!:" + Decimal(day) + ":0:99999:7:::"
  }

  /** A session without a shell gets this one. */
  function ShellOf(luck: Luck): (shell: string)
  {
    if luck.shell == "" then "/bin/sh" else luck.shell
  }

  // ----- what the entries say

  /** The account file with one line more, begun on a line of its own. */
  predicate Gained(was: File, now: File, line: string)
  {
    TextOf(now) == Terminated(TextOf(was)) + line + [NL]
  }

  /** The fields of the passwd entry, of which the buffer leaves the first 511 characters. */
  predicate PasswdLine(l: string, user: string, uid: nat, home: string, shell: string)
  {
    var full := Join([user, "x", Decimal(uid), Decimal(uid), "node-terminal ephemeral session", home, shell], COLON);
    l <= full && |l| == if |full| < 512 then |full| else 511
  }

  /** The password is locked, was changed on that day, and expires as the defaults say. */
  predicate ShadowLine(l: string, user: string, day: nat)
  {
    Split(l, COLON) == [user, "!", Decimal(day), "0", "99999", "7", "", "", ""]
  }

  /** A group of the user's own, without members. */
  predicate GroupLine(l: string, user: string, gid: nat)
  {
    Split(l, COLON) == [user, "x", Decimal(gid), ""]
  }

  /** The account as passwd and shadow have it; an empty shell stands for `/bin/sh`. */
  ghost predicate Account(was: Host, h: Host, c: Ctx, shell: string, day: nat)
  {
    && (exists l :: PasswdLine(l, c.user, c.uid, c.home, if shell == "" then "/bin/sh" else shell)
                    && Gained(was.passwd, h.passwd, l))
    && exists l :: ShadowLine(l, c.user, day) && Gained(was.shadow, h.shadow, l)
  }

  lemma {:induction false} PasswdEntryLine(user: string, uid: nat, home: string, shell: string)
    ensures PasswdLine(PasswdEntry(user, uid, home, shell), user, uid, home, shell)
  {
    hide Decimal, Join;
    var d := Decimal(uid);
    SevenJoined(user, "x", d, d, "node-terminal ephemeral session", home, shell);
    assert ":node-terminal ephemeral session:" == [COLON] + "node-terminal ephemeral session" + [COLON];
    assert ":" == [COLON];
    EntryEnd(d, "node-terminal ephemeral session", home, shell);
    EntryStart(user, "x", d, d + [COLON] + ("node-terminal ephemeral session" + [COLON] + (home + [COLON] + shell)));
  }

  lemma {:induction false} EntryStart(a: string, b: string, c: string, tail: string)
    ensures a + [COLON] + (b + [COLON] + (c + [COLON])) + tail == a + [COLON] + (b + [COLON] + (c + [COLON] + tail))
  {
    CatAssoc(a + [COLON], b + [COLON] + (c + [COLON]), tail);
    CatAssoc(b + [COLON], c + [COLON], tail);
  }

  lemma {:induction false} EntryEnd(d: string, e: string, f: string, g: string)
    ensures d + ([COLON] + e + [COLON]) + f + [COLON] + g == d + [COLON] + (e + [COLON] + (f + [COLON] + g))
  {
    CatAssoc(d + ([COLON] + e + [COLON]), f, [COLON]);
    CatAssoc(d + ([COLON] + e + [COLON]), f + [COLON], g);
    CatAssoc([COLON], e, [COLON]);
    CatAssoc(d, [COLON], e + [COLON]);
    CatAssoc(d + [COLON], e + [COLON], f + [COLON] + g);
  }

  lemma {:induction false} SevenJoined(a: string, b: string, c: string, d: string, e: string, f: string, g: string)
    ensures Join([a, b, c, d, e, f, g], COLON)
            == a + [COLON] + (b + [COLON] + (c + [COLON] + (d + [COLON] + (e + [COLON] + (f + [COLON] + g)))))
  {
    assert [a, b, c, d, e, f, g][1..] == [b, c, d, e, f, g] && [b, c, d, e, f, g][1..] == [c, d, e, f, g];
    assert [c, d, e, f, g][1..] == [d, e, f, g] && [d, e, f, g][1..] == [e, f, g] && [e, f, g][1..] == [f, g];
    assert [f, g][1..] == [g] && Join([g], COLON) == g && Join([f, g], COLON) == f + [COLON] + g;
    assert Join([e, f, g], COLON) == e + [COLON] + (f + [COLON] + g);
    assert Join([d, e, f, g], COLON) == d + [COLON] + (e + [COLON] + (f + [COLON] + g));
    assert Join([c, d, e, f, g], COLON) == c + [COLON] + (d + [COLON] + (e + [COLON] + (f + [COLON] + g)));
  }

  lemma {:induction false} ShadowEntryLine(user: string, day: nat)
    requires Atom(user)
    ensures ShadowLine(ShadowEntry(user, day), user, day)
  {
    hide Decimal, Split;
    DecimalDigits(day);
    var d := Decimal(day);
    assert COLON !in d;
    var fields := [user, "!", d, "0", "99999", "7", "", "", ""];
    var l := user + [COLON] + ("!" + [COLON] + (d + [COLON] + ("0" + [COLON] + ("99999" + [COLON] + ("7" + [COLON]
             + ("" + [COLON] + ("" + [COLON] + "")))))));
    assert ShadowEntry(user, day) == l;
    SplitAtFirst(user, COLON, "!" + [COLON] + (d + [COLON] + ("0" + [COLON] + ("99999" + [COLON] + ("7" + [COLON]
                 + ("" + [COLON] + ("" + [COLON] + "")))))));
    SplitAtFirst("!", COLON, d + [COLON] + ("0" + [COLON] + ("99999" + [COLON] + ("7" + [COLON]
                 + ("" + [COLON] + ("" + [COLON] + ""))))));
    SplitAtFirst(d, COLON, "0" + [COLON] + ("99999" + [COLON] + ("7" + [COLON] + ("" + [COLON] + ("" + [COLON]
                 + "")))));
    ShadowTail();
    assert [user] + (["!"] + ([d] + ["0", "99999", "7", "", "", ""])) == fields;
  }

  lemma {:induction false} ShadowTail()
    ensures Split("0" + [COLON] + ("99999" + [COLON] + ("7" + [COLON] + ("" + [COLON] + ("" + [COLON] + "")))), COLON)
            == ["0", "99999", "7", "", "", ""]
  {
    hide Split;
    SplitAtFirst("0", COLON, "99999" + [COLON] + ("7" + [COLON] + ("" + [COLON] + ("" + [COLON] + ""))));
    SplitAtFirst("99999", COLON, "7" + [COLON] + ("" + [COLON] + ("" + [COLON] + "")));
    SplitAtFirst("7", COLON, "" + [COLON] + ("" + [COLON] + ""));
    SplitAtFirst("", COLON, "" + [COLON] + "");
    SplitAtFirst("", COLON, "");
    SplitNone("", COLON);
    assert ["0"] + (["99999"] + (["7"] + ([""] + ([""] + [""])))) == ["0", "99999", "7", "", "", ""];
  }

  /** The session's own group: no password, its GID, and nobody in it yet. */
  lemma {:induction false} GroupEntryLine(user: string, gid: nat)
    requires Atom(user)
    ensures GroupLine(GroupEntry(user, gid), user, gid)
  {
    hide Decimal, Split;
    DecimalDigits(gid);
    var d := Decimal(gid);
    assert COLON !in d;
    assert GroupEntry(user, gid) == user + [COLON] + ("x" + [COLON] + (d + [COLON] + ""));
    SplitAtFirst(user, COLON, "x" + [COLON] + (d + [COLON] + ""));
    SplitAtFirst("x", COLON, d + [COLON] + "");
    SplitAtFirst(d, COLON, "");
    SplitNone("", COLON);
    assert [user] + (["x"] + ([d] + [""])) == [user, "x", d, ""];
  }

  lemma {:induction false} AppendGains(f: File, entry: string)
    ensures Gained(f, AppendTo(f, entry), entry)
  {
    CatAssoc(Terminated(TextOf(f)), entry, [NL]);
  }

  lemma {:induction false} AccountWritten(was: Host, h: Host, c: Ctx, luck: Luck)
    requires Atom(c.user)
    requires h.passwd == AppendTo(was.passwd, PasswdEntry(c.user, c.uid, c.home, ShellOf(luck)))
    requires h.shadow == AppendTo(was.shadow, ShadowEntry(c.user, luck.day))
    ensures Account(was, h, c, luck.shell, luck.day)
  {
    hide PasswdEntry, ShadowEntry, PasswdLine, ShadowLine, AppendTo, Gained;
    PasswdEntryLine(c.user, c.uid, c.home, ShellOf(luck));
    ShadowEntryLine(c.user, luck.day);
    AppendGains(was.passwd, PasswdEntry(c.user, c.uid, c.home, ShellOf(luck)));
    AppendGains(was.shadow, ShadowEntry(c.user, luck.day));
  }

  /** It stays as long as passwd and shadow do. */
  lemma {:induction false} AccountStays(was: Host, h: Host, h': Host, c: Ctx, c': Ctx, shell: string, day: nat)
    requires Account(was, h, c, shell, day) && h'.passwd == h.passwd && h'.shadow == h.shadow
    requires c'.user == c.user && c'.uid == c.uid && c'.home == c.home
    ensures Account(was, h', c', shell, day)
  {
    hide PasswdLine, ShadowLine, Gained;
  }

  /** The group file of a live session: its own group's line, and the groups that it joined. */
  lemma {:induction false} LiveGroup(was: Host, h: Host, c: Ctx, groups: seq<string>)
    requires Recoverable(was, h, c, groups, true) && c.doneIdentity && Atom(c.user)
    ensures exists l, own :: GroupLine(l, c.user, c.uid) && Gained(was.group, own, l)
                             && h.group == EditGroups(own, c.inherited, c.user, true)
  {
    hide Places, EnteredUid, Entered, EditGroups, AppendTo, GroupEntry, GroupLine, Gained, Atom;
    var l := GroupEntry(c.user, c.uid);
    GroupEntryLine(c.user, c.uid);
    AppendGains(was.group, l);
    assert GroupLine(l, c.user, c.uid) && Gained(was.group, AppendTo(was.group, l), l);
  }

  /** The groups found for which the rewrite of the group file succeeds, in order. */
  function Joins(found: seq<string>, adds: seq<bool>): (r: seq<string>)
  {
    if found == [] then []
    else
      var k := |found| - 1;
      Joins(found[..k], adds) + if k < |adds| && adds[k] then [found[k]] else []
  }

  // ----- the name

  /** A name that passwd has is given up for the fallback; the home goes by the name. */
  lemma {:induction false} NameIsNew(h: Host, c: Ctx, fallback: string)
    requires Lacks(TextOf(h.passwd), fallback + ":")
    ensures var r := ResolvedUser(h, c, fallback);
            && Lacks(TextOf(h.passwd), r.user + ":")
            && (c.home == "/home/" + c.user ==> r.home == "/home/" + r.user)
            && (Lacks(TextOf(h.passwd), c.user + ":") ==> r == c)
  {
    hide Lacks;
    assert [COLON] == ":";
  }

  lemma {:induction false} Entries(was: Host, c: Ctx, shell: string, day: nat)
    requires Atom(c.user) && |c.user| < 64 && c.uid <= UID_MAX && NL !in c.home && NL !in shell
    ensures EnteredUid(was.passwd, AppendTo(was.passwd, PasswdEntry(c.user, c.uid, c.home, shell)), c.user, c.uid)
    ensures Entered(was.shadow, AppendTo(was.shadow, ShadowEntry(c.user, day)), c.user)
    ensures Entered(was.group, AppendTo(was.group, GroupEntry(c.user, c.uid)), c.user)
  {
    hide AppendTo, PasswdEntry, Decimal, GroupEntry, EntryFront, UidOf;
    EntryFits(c.user, c.uid);
    var tail := EntryTail(c.user, c.uid, c.home, shell);
    FrontMark(c.user, c.uid, tail);
    assert IsEntry(PasswdEntry(c.user, c.uid, c.home, shell), c.user, c.uid);
    EntryLine(PasswdEntry(c.user, c.uid, c.home, shell), c.user, c.uid);
    OwnGroupLine(c.user, c.uid);
    DecimalDigits(day);
    var e := ShadowEntry(c.user, day);
    assert e[..|c.user| + 1] == Mark(c.user);
    assert NL !in Decimal(day);
  }

  lemma {:induction false} FrontMark(user: string, uid: nat, tail: string)
    requires Atom(user) && NL !in tail
    ensures Mark(user) <= EntryFront(user, uid) + tail && NL !in EntryFront(user, uid) + tail
  {
    hide Decimal;
    DecimalDigits(uid);
    assert NL !in Decimal(uid);
    assert (EntryFront(user, uid) + tail)[..|user| + 1] == Mark(user);
  }

  lemma {:induction false} EditedAllSnoc(s: string, groups: seq<string>, group: string, user: string, add: bool)
    ensures EditedAll(s, groups + [group], user, add) == EditedText(EditedAll(s, groups, user, add), group, user, add)
    decreases |groups|
  {
    hide EditedText;
    if groups == [] {
      assert [] + [group] == [group] && [group][1..] == [];
    } else {
      assert (groups + [group])[1..] == groups[1..] + [group];
      EditedAllSnoc(EditedText(s, groups[0], user, add), groups[1..], group, user, add);
    }
  }

  lemma {:induction false} EditGroupsSnoc(f: File, groups: seq<string>, group: string, user: string)
    ensures EditGroups(f, groups + [group], user, true)
            == Present(EditedText(TextOf(EditGroups(f, groups, user, true)), group, user, true))
  {
    hide EditedText;
    EditedAllSnoc(TextOf(f), groups, group, user, true);
  }

  class Session {
    var host: Host
    var ctx: Ctx

    constructor (h: Host, c: Ctx)
      ensures host == h && ctx == Fresh(c)
    {
      host, ctx := h, Fresh(c);
    }

    /**
     Unconditional, in reverse order of what completed: from any point of the setup the
     host is restored. `who` has the names that the session has settled on, or will.
     */
    method Rollback(ghost was: Host, ghost who: Ctx, ghost groups: seq<string>, ghost tried: bool)
      requires Clean(was, As(ctx, who), groups) && Recoverable(was, host, As(ctx, who), groups, tried) &&
               ctx.uid <= UID_MAX
      requires As(ctx, who) == ctx || Nameless(ctx)
      modifies this
      ensures Restored(was, host, who.home, tried) && ctx == Fresh(old(ctx))
    {
      AsIs(ctx, who);
      hide *;
      RollbackRestores(was, host, As(ctx, who), groups, tried);
      if As(ctx, who) != ctx {
        NamesAreMoot(host, ctx, who);
      }
      var h := UndoMount(host, ctx);
      h := UndoHome(h, ctx);
      h := UndoGroups(h, ctx);
      h := UndoIdentity(h, ctx);
      h := UndoLock(h, ctx);
      h := UndoCtty(h, ctx);
      h := UndoPublish(h, ctx);
      RolledBackIs(host, ctx);
      host, ctx := h, Fresh(ctx);
    }

    /** Copies the binary to the host: the directory stays, a failed copy does not. */
    method PublishBinary(luck: Luck, ghost was: Host, ghost who: Ctx, ghost groups: seq<string>) returns (ok: bool)
      requires Clean(was, As(ctx, who), groups) && Recoverable(was, host, As(ctx, who), groups, false) &&
               !ctx.donePublish
      modifies this
      ensures Recoverable(was, host, As(ctx, who), groups, false) && ctx == old(ctx).(donePublish := ok) &&
              SameFiles(old(host), host)
      ensures ok == (luck.publishDir && luck.publish)
    {
      hide Accounts, Clean;
      CleanPlaces(was, As(ctx, who), groups);
      ghost var h0, c0 := host, As(ctx, who);
      if !luck.publishDir {
        return false;
      }
      host := host.(dirs := host.dirs + {PUBLISH_BASE});
      if luck.publish {
        host, ctx := host.(files := host.files + {ctx.binary}), ctx.(donePublish := true);
      }
      SameAccounts(was, h0, host, c0, As(ctx, who), groups);
      ok := luck.publish;
    }

    /** Makes the tty alias and mounts the terminal there. */
    method BindCtty(luck: Luck, ghost was: Host, ghost who: Ctx, ghost groups: seq<string>) returns (ok: bool)
      requires Clean(was, As(ctx, who), groups) && Recoverable(was, host, As(ctx, who), groups, false) && !ctx.doneCtty
      modifies this
      ensures Recoverable(was, host, As(ctx, who), groups, false) && ctx == old(ctx).(doneCtty := ok) &&
              SameFiles(old(host), host)
      ensures ok == (luck.openTty && luck.moveTty)
    {
      hide Accounts, Clean;
      CleanPlaces(was, As(ctx, who), groups);
      ghost var h0, c0 := host, As(ctx, who);
      if !luck.openTty {
        return false;
      }
      var files := host.files + {ctx.ctty};
      if !luck.moveTty {
        files := files - {ctx.ctty};
        assert ctx.ctty !in host.files ==> files == host.files;
        host := host.(files := files);
        SameAccounts(was, h0, host, c0, c0, groups);
        return false;
      }
      host, ctx := host.(files := files, mounts := host.mounts + multiset{ctx.ctty}), ctx.(doneCtty := true);
      SameAccounts(was, h0, host, c0, As(ctx, who), groups);
      ok := true;
    }

    /** Takes the lock and scans; the lock is kept only with a UID. */
    method AllocUid(luck: Luck, ghost was: Host, ghost groups: seq<string>) returns (ok: bool)
      requires Recoverable(was, host, ctx, groups, false) && !ctx.doneAlloc && !ctx.doneIdentity && !ctx.lockFd
      requires luck.scan ==> Free(TextOf(host.passwd), luck.uid)
      modifies this
      ensures Recoverable(was, host, ctx, groups, false)
      ensures ok ==> Free(TextOf(host.passwd), ctx.uid)
      ensures ctx == if ok then old(ctx).(doneAlloc := true, lockFd := true, uid := luck.uid) else old(ctx)
      ensures ok == (luck.lock && luck.scan) && SameFiles(old(host), host)
    {
      hide Accounts;
      ghost var h0 := host;
      if !luck.lock {
        return false;
      }
      var held := host.(locked := true);
      if !luck.scan {
        host := held.(locked := false);
        SameAccounts(was, h0, host, ctx, ctx, groups);
        return false;
      }
      host, ctx := held, ctx.(doneAlloc := true, lockFd := true, uid := luck.uid);
      NoAccountYet(was, h0, host, old(ctx), ctx, groups);
      ok := true;
    }

    method ReleaseLock(ghost was: Host, ghost groups: seq<string>)
      requires Recoverable(was, host, ctx, groups, false)
      modifies this
      ensures Recoverable(was, host, ctx, groups, false) && ctx == old(ctx).(lockFd := false)
      ensures SameLogins(old(host), host)
    {
      hide Accounts;
      ghost var h0, c0 := host, ctx;
      if ctx.lockFd {
        host, ctx := host.(locked := false), ctx.(lockFd := false);
      }
      SameAccounts(was, h0, host, c0, ctx, groups);
    }

    /** Appends the three entries; a failure undoes those already written. */
    method WriteIdentity(luck: Luck, ghost was: Host, ghost groups: seq<string>) returns (ok: bool)
      requires Clean(was, ctx, groups) && Recoverable(was, host, ctx, groups, false) && !ctx.doneIdentity &&
               !ctx.doneInherit
      requires ctx.uid <= UID_MAX && NL !in ctx.home && NL !in luck.shell && ctx.lockFd
      requires host.passwd == was.passwd && host.shadow == was.shadow && host.group == was.group
      modifies this
      ensures Recoverable(was, host, ctx, groups, false) && ctx == old(ctx).(doneIdentity := ok)
      ensures ok == (luck.passwd && luck.group && luck.shadow)
      ensures ok ==> Account(was, host, ctx, luck.shell, luck.day)
    {
      CleanNames(was, ctx, groups);
      Entries(was, ctx, ShellOf(luck), luck.day);
      hide ShellOf, Account, Clean, Places, Entered, EnteredUid, RestoredFile, AppendTo, RemoveFrom, EditGroups,
           PasswdEntry, ShadowEntry, GroupEntry, Lacks, Mark, Atom, UidOf, Fresh;
      ghost var h0, c0 := host, ctx;
      var h := host;
      if !luck.passwd {
        return false;
      }
      h := h.(passwd := AppendTo(h.passwd, PasswdEntry(ctx.user, ctx.uid, ctx.home, ShellOf(luck))));
      EnteredUidIs(was.passwd, h.passwd, ctx.user, ctx.uid);
      EntryRemoved(was.passwd, h.passwd, ctx.user);
      if !luck.group {
        host := h.(passwd := RemoveFrom(h.passwd, ctx.user));
        SamePlaces(was, h0, host, c0, ctx, false);
        return false;
      }
      h := h.(group := AppendTo(h.group, GroupEntry(ctx.user, ctx.uid)));
      EntryRemoved(was.group, h.group, ctx.user);
      if !luck.shadow {
        host := h.(passwd := RemoveFrom(h.passwd, ctx.user), group := RemoveFrom(h.group, ctx.user));
        SamePlaces(was, h0, host, c0, ctx, false);
        return false;
      }
      host, ctx := h.(shadow := AppendTo(h.shadow, ShadowEntry(ctx.user, luck.day))), ctx.(doneIdentity := true);
      NoGroupsYet(was.group, ctx.user, ctx.uid);
      SamePlaces(was, h0, host, c0, ctx, false);
      AccountWritten(was, host, c0, luck);
      AccountStays(was, host, host, c0, ctx, luck.shell, luck.day);
      ok := true;
    }

    /** Joins the groups found for the reference user, and remembers those it joined. */
    method InheritGroups(luck: Luck, ghost was: Host)
      requires Recoverable(was, host, ctx, luck.found, false) && ctx.doneIdentity && ctx.inherited == []
      modifies this
      ensures Recoverable(was, host, ctx, luck.found, false)
      ensures ctx == old(ctx).(doneInherit := true, inherited := Joins(luck.found, luck.adds))
      ensures SameLogins(old(host), host)
    {
      hide Places, Entered, EnteredUid, RestoredFile, AppendTo, EditGroups, GroupEntry, EditedText;
      ghost var h0, c0 := host, ctx;
      var group, joined := host.group, [];
      ghost var start := AppendTo(was.group, GroupEntry(ctx.user, ctx.uid));
      var i := 0;
      while i < |luck.found|
        invariant 0 <= i <= |luck.found| && host == h0 && ctx == c0
        invariant joined == Joins(luck.found[..i], luck.adds) && forall k | 0 <= k < |joined| :: joined[k] in luck.found
        invariant group == EditGroups(start, joined, ctx.user, true)
      {
        assert luck.found[..i + 1][..i] == luck.found[..i];
        if i < |luck.adds| && luck.adds[i] {
          EditGroupsSnoc(start, joined, luck.found[i], ctx.user);
          group := Present(EditedText(TextOf(group), luck.found[i], ctx.user, true));
          joined := joined + [luck.found[i]];
        }
        i := i + 1;
      }
      assert luck.found[..|luck.found|] == luck.found;
      host, ctx := host.(group := group), ctx.(inherited := joined, doneInherit := true);
      SamePlaces(was, h0, host, c0, ctx, false);
    }

    /** Makes the home, or takes one that is there, and gives it to the session. */
    method MkdirHome(luck: Luck, ghost was: Host, ghost groups: seq<string>) returns (ok: bool)
      requires Clean(was, ctx, groups) && Recoverable(was, host, ctx, groups, false) && !ctx.doneHome && !ctx.doneMount
      modifies this
      ensures Recoverable(was, host, ctx, groups, luck.mkdir)
      ensures ctx == old(ctx).(doneHome := ok) && ok == (luck.mkdir && luck.chown)
      ensures SameLogins(old(host), host)
    {
      hide Accounts, Clean;
      CleanPlaces(was, ctx, groups);
      ghost var h0, c0 := host, ctx;
      if !luck.mkdir {
        return false;
      }
      var made := host.(dirs := host.dirs + {ctx.home});
      if !luck.chown {
        host := Rmdir(made, ctx.home);
        SameAccounts(was, h0, host, c0, ctx, groups);
        return false;
      }
      host, ctx := made, ctx.(doneHome := true);
      SameAccounts(was, h0, host, c0, ctx, groups);
      ok := true;
    }

    method BindMount(luck: Luck, ghost was: Host, ghost groups: seq<string>) returns (ok: bool)
      requires Recoverable(was, host, ctx, groups, true) && !ctx.doneMount
      modifies this
      ensures Recoverable(was, host, ctx, groups, true) && ctx == old(ctx).(doneMount := ok) && ok == luck.mount
      ensures SameLogins(old(host), host)
    {
      hide Accounts;
      ghost var h0, c0 := host, ctx;
      if !luck.mount {
        return false;
      }
      host, ctx := host.(mounts := host.mounts + multiset{ctx.home}), ctx.(doneMount := true);
      SameAccounts(was, h0, host, c0, ctx, groups);
      ok := true;
    }

    /** Waits for the session of privacy mode, with its two markers. */
    method ServeExec(luck: Luck, ghost was: Host, ghost groups: seq<string>) returns (ok: bool)
      requires Recoverable(was, host, ctx, groups, true)
      modifies this
      ensures Recoverable(was, host, ctx, groups, true) && ctx == old(ctx) && ok == luck.marker
    {
      hide Accounts;
      ghost var h0 := host;
      host := host.(ended := false);
      if luck.marker {
        // the session runs; its end leaves the marker or a signal arrives
        host := host.(active := false, ended := false);
      }
      SameAccounts(was, h0, host, ctx, ctx, groups);
      ok := luck.marker;
    }

    /** An exit with the names settled. */
    method Abort(code: int, ghost was: Host, ghost groups: seq<string>, ghost tried: bool) returns (rc: int)
      requires Clean(was, ctx, groups) && Recoverable(was, host, ctx, groups, tried) && ctx.uid <= UID_MAX
      modifies this
      ensures Restored(was, host, old(ctx).home, tried) && ctx == Fresh(old(ctx)) && rc == code
    {
      AsIs(ctx, ctx);
      hide *;
      Rollback(was, ctx, groups, tried);
      rc := code;
    }

    /** The steps after the account exists. */
    method Finish(execMode: bool, luck: Luck, ghost was: Host) returns (rc: int, ghost live: Moment)
      requires Clean(was, ctx, luck.found) && Recoverable(was, host, ctx, luck.found, false) && ctx.uid <= UID_MAX
      requires ctx.doneIdentity && ctx.inherited == [] && !ctx.doneHome && !ctx.doneMount
      modifies this
      ensures Restored(was, host, old(ctx).home, luck.mkdir)
      ensures rc == Code(HomeMade(luck) && (execMode ==> luck.marker))
      ensures rc == 0 ==> Recoverable(was, live.host, live.ctx, luck.found, true) && SameLogins(old(host), live.host)
      ensures rc == 0 ==> live.ctx.doneMount
      ensures rc == 0 ==> live.ctx == old(ctx).(inherited := Joins(luck.found, luck.adds), doneInherit := true,
                                                lockFd := false, doneHome := true, doneMount := true)
    {
      HomeMadeIs(luck);
      CodeIs();
      hide *;
      ghost var c0 := ctx;
      ghost var h0 := host;
      live := Moment(host, ctx);
      InheritGroups(luck, was);
      ghost var h1 := host;
      ReleaseLock(was, luck.found);
      LoginsChain(h0, h1, host);
      SameClean(was, c0, ctx, luck.found);
      h1 := host;
      var ok := MkdirHome(luck, was, luck.found);
      LoginsChain(h0, h1, host);
      SameClean(was, c0, ctx, luck.found);
      if !ok {
        rc := Abort(Code(false), was, luck.found, luck.mkdir);
        return;
      }
      h1 := host;
      ok := BindMount(luck, was, luck.found);
      SameClean(was, c0, ctx, luck.found);
      if !ok {
        rc := Abort(Code(false), was, luck.found, true);
        return;
      }
      LoginsChain(h0, h1, host);
      live := Moment(host, ctx);
      if execMode {
        ok := ServeExec(luck, was, luck.found);
      }
      rc := Abort(Code(ok), was, luck.found, true);
    }

    /** The steps that make the account. */
    method Setup(execMode: bool, luck: Luck, ghost was: Host) returns (rc: int, ghost live: Moment)
      requires Clean(was, ctx, luck.found) && Recoverable(was, host, ctx, luck.found, false)
      requires host.passwd == was.passwd && host.shadow == was.shadow && host.group == was.group
      requires ctx == Fresh(ctx).(donePublish := ctx.donePublish, doneCtty := ctx.doneCtty)
      requires ctx.uid <= UID_MAX && (luck.scan ==> Free(TextOf(was.passwd), luck.uid)) && NL !in ctx.home &&
               NL !in luck.shell
      modifies this
      ensures Restored(was, host, old(ctx).home, AccountMade(luck) && luck.mkdir)
      ensures rc == Code(AccountMade(luck) && HomeMade(luck) && (execMode ==> luck.marker))
      ensures rc == 0 ==> Recoverable(was, live.host, live.ctx, luck.found, true)
      ensures rc == 0 ==> live.ctx == SetUp(old(ctx), luck)
      ensures rc == 0 ==> Account(was, live.host, live.ctx, luck.shell, luck.day)
    {
      FreshFlags(ctx);
      AccountMadeIs(luck);
      SetUpIs(ctx, luck);
      if luck.scan {
        FreeIsSmall(TextOf(was.passwd), luck.uid);
      }
      hide *;
      CodeIs();
      ghost var c0 := ctx;
      live := Moment(host, ctx);
      var ok := AllocUid(luck, was, luck.found);
      SameClean(was, c0, ctx, luck.found);
      if !ok {
        rc := Abort(Code(false), was, luck.found, false);
        return;
      }
      SameStill(was, host);
      ok := WriteIdentity(luck, was, luck.found);
      SameClean(was, c0, ctx, luck.found);
      if !ok {
        rc := Abort(Code(false), was, luck.found, false);
        return;
      }
      ghost var h1, c1 := host, ctx;
      rc, live := Finish(execMode, luck, was);
      if rc == 0 {
        LoginsSame(h1, live.host);
        AccountStays(was, h1, live.host, c1, live.ctx, luck.shell, luck.day);
      }
    }

    /** An exit before the names are settled. */
    method AbortEarly(ghost was: Host, ghost who: Ctx, ghost groups: seq<string>) returns (rc: int)
      requires Clean(was, As(ctx, who), groups) && Recoverable(was, host, As(ctx, who), groups, false) &&
               ctx.uid <= UID_MAX
      requires Nameless(ctx)
      modifies this
      ensures Restored(was, host, who.home, false) && rc == 1
    {
      hide *;
      Rollback(was, who, groups, false);
      rc := 1;
    }

    /**
     `pipeline_run`: whichever step fails, and when the session ends, the host is as
     it was before; if the setup got to the home, that is so of the home exactly when it
     was absent, had something in it, or was a mount point: `mkdir` accepts an existing
     directory, and `rmdir` then removes it if it is empty. (An existing home keeps the
     session's owner.) It succeeds exactly when no
     step fails, and then there was a moment, `live`, at which everything was set up and
     the UID was that of no other passwd line.
     */
    method Run(execMode: bool, luck: Luck, fallback: string) returns (rc: int, ghost live: Moment)
      requires ctx == Fresh(ctx) && ctx.uid <= UID_MAX && (luck.scan ==> Free(TextOf(host.passwd), luck.uid))
      requires Clean(host, ResolvedUser(host, ctx, fallback), luck.found)
      requires NL !in ResolvedUser(host, ctx, fallback).home && NL !in luck.shell
      modifies this
      ensures Restored(old(host), host, ResolvedUser(old(host), old(ctx), fallback).home, Tried(luck, execMode))
      ensures var home := ResolvedUser(old(host), old(ctx), fallback).home;
              Tried(luck, execMode) ==>
                ((home in host.dirs <==> home in old(host).dirs) <==> home !in old(host).dirs || Keeps(old(host), home))
      ensures rc == Code(Good(luck, execMode))
      ensures rc == 0 ==>
                && Recoverable(old(host), live.host, live.ctx, luck.found, true)
                && live.ctx == SetUp(Bound(ResolvedUser(old(host), old(ctx), fallback), execMode), luck)
                && Owned(Lines(TextOf(live.host.passwd)), live.ctx.user, live.ctx.uid)
                && Account(old(host), live.host, live.ctx, luck.shell, luck.day)
    {
      hide *;
      ghost var was, home := host, ResolvedUser(host, ctx, fallback).home;
      rc, live := Steps(execMode, luck, fallback);
      HomeBack(was, host, home, Tried(luck, execMode));
    }

    /** The steps of `pipeline_run` in order. */
    method Steps(execMode: bool, luck: Luck, fallback: string) returns (rc: int, ghost live: Moment)
      requires ctx == Fresh(ctx) && ctx.uid <= UID_MAX && (luck.scan ==> Free(TextOf(host.passwd), luck.uid))
      requires Clean(host, ResolvedUser(host, ctx, fallback), luck.found)
      requires NL !in ResolvedUser(host, ctx, fallback).home && NL !in luck.shell
      modifies this
      ensures Restored(old(host), host, ResolvedUser(old(host), old(ctx), fallback).home, Tried(luck, execMode))
      ensures rc == Code(Good(luck, execMode))
      ensures rc == 0 ==>
                && Recoverable(old(host), live.host, live.ctx, luck.found, true)
                && live.ctx == SetUp(Bound(ResolvedUser(old(host), old(ctx), fallback), execMode), luck)
                && Owned(Lines(TextOf(live.host.passwd)), live.ctx.user, live.ctx.uid)
                && Account(old(host), live.host, live.ctx, luck.shell, luck.day)
    {
      ghost var was, who, c0 := host, ResolvedUser(host, ctx, fallback), ctx;
      StartOfRun(was, ctx, who, fallback, luck.found);
      GoodIs(luck, execMode);
      CodeIs();
      hide *;
      live := Moment(host, ctx);
      if !luck.capture || !luck.captureTty {
        return Code(false), live;
      }
      if !luck.enter {
        rc := AbortEarly(was, who, luck.found);
        return;
      }
      if execMode {
        var published := PublishBinary(luck, was, who, luck.found);
        NamelessStill(c0, ctx);
        AsClean(was, c0, ctx, who, luck.found);
        if !published {
          rc := AbortEarly(was, who, luck.found);
          return;
        }
      }
      if !luck.resolve {
        rc := AbortEarly(was, who, luck.found);
        return;
      }
      StillResolved(was, c0, ctx, fallback, execMode);
      rc, live := Enter(execMode, luck, fallback, was, who);
      if rc == 0 {
        SetUpUid(Bound(ResolvedUser(was, c0, fallback), execMode), luck);
        LiveAccount(was, live.host, live.ctx, luck.found);
      }
    }

    /** From the tty alias on; the user name is settled on the way. */
    method Enter(execMode: bool, luck: Luck, fallback: string, ghost was: Host, ghost who: Ctx)
      returns (rc: int, ghost live: Moment)
      requires Clean(was, As(ctx, who), luck.found) && Recoverable(was, host, As(ctx, who), luck.found, false)
      requires SameFiles(was, host) && As(ctx, who) == ResolvedUser(was, ctx, fallback)
      requires ctx == Fresh(ctx).(donePublish := ctx.donePublish)
      requires ctx.uid <= UID_MAX && (luck.scan ==> Free(TextOf(was.passwd), luck.uid))
      requires NL !in As(ctx, who).home && NL !in luck.shell
      modifies this
      ensures Restored(was, host, who.home, EnterTried(luck)) && rc == Code(EnterGood(luck, execMode))
      ensures rc == 0 ==> Recoverable(was, live.host, live.ctx, luck.found, true)
      ensures rc == 0 ==>
                && live.ctx == SetUp(ResolvedUser(was, old(ctx), fallback).(doneCtty := true), luck)
                && Account(was, live.host, live.ctx, luck.shell, luck.day)
    {
      EarlyFlags(ctx);
      EnterGoodIs(luck, execMode);
      CodeIs();
      ghost var c0 := ctx;
      AsIs(ctx, who);
      hide *;
      live := Moment(host, ctx);
      var ok := BindCtty(luck, was, who, luck.found);
      NamelessStill(c0, ctx);
      AsClean(was, c0, ctx, who, luck.found);
      if !ok {
        rc := AbortEarly(was, who, luck.found);
        return;
      }
      SameStill(was, host);
      SettledName(was, host, c0, ctx, who, fallback);
      ctx := ResolvedUser(host, ctx, fallback);
      rc, live := Setup(execMode, luck, was);
    }
  }

  lemma {:induction false} FreeIsSmall(text: string, uid: nat)
    requires Free(text, uid)
    ensures uid <= UID_MAX
  {
    hide Takes, Lines;
  }

  lemma {:induction false} NamelessStill(c: Ctx, c': Ctx)
    requires Nameless(c) && c' == c.(donePublish := c'.donePublish, doneCtty := c'.doneCtty)
    ensures Nameless(c')
  {
  }

  // ----- a home that is lost

  /** A host without accounts on which the user's home is an empty directory. */
  function EmptyHome(user: string): (h: Host)
  {
    Host(Missing, Missing, Missing, {HOME_BASE + user}, {}, multiset{}, {}, false, false, false)
  }

  function Newcomer(user: string): (c: Ctx)
  {
    Ctx(user, HOME_BASE + user, "/dev/pts/0", "/shim", 0, [], false, false, false, false, false, false, false, false)
  }

  /** Every step succeeds, and no group is found to join. */
  function AllWell(uid: nat): (r: Luck)
  {
    Luck(true, true, true, true, true, true, true, true, true, true, uid, "/bin/sh", 0, true, true, true, [], [], true,
         true, true, true)
  }

  lemma {:induction false} NewcomerClean(user: string, uid: nat, fallback: string)
    requires Atom(user) && |user| < 64 && UID_MIN <= uid <= UID_MAX
    ensures var h, c := EmptyHome(user), Newcomer(user);
            && c == Fresh(c) && ResolvedUser(h, c, fallback) == c && Clean(h, c, []) && Free(TextOf(h.passwd), uid)
            && NL !in c.home && NL !in "/bin/sh"
  {
    hide Atom, Mark;
    var h, c := EmptyHome(user), Newcomer(user);
    assert c.home[1] == 'h' && |c.home| >= 6 && c.ctty[1] == 'd' && PUBLISH_BASE[1] == 'v';
    assert Lines("") == [] && Terminated("") == "";
    assert NL !in user by { AtomLine(user); }
  }

  lemma {:induction false} AtomLine(user: string)
    requires Atom(user)
    ensures NL !in user
  {
  }

  /** A run in which nothing fails, on a host that has the user's home as an empty directory: it ends without it. */
  method EmptyHomeLost(user: string, uid: nat, execMode: bool, fallback: string) returns (rc: int, now: Host)
    requires Atom(user) && |user| < 64 && UID_MIN <= uid <= UID_MAX
    ensures rc == 0 && HOME_BASE + user in EmptyHome(user).dirs && HOME_BASE + user !in now.dirs
    ensures Restored(EmptyHome(user), now, HOME_BASE + user, true)
  {
    NewcomerClean(user, uid, fallback);
    var was := EmptyHome(user);
    var session := new Session(was, Newcomer(user));
    var luck := AllWell(uid);
    assert Good(luck, execMode) && Tried(luck, execMode);
    hide Clean, Free, ResolvedUser, RestoredFile;
    ghost var live: Moment;
    rc, live := session.Run(execMode, luck, fallback);
    now := session.host;
  }

  /** What is left of `Recoverable` at the live moment: the UID is the session's own. */
  lemma {:induction false} LiveAccount(was: Host, h: Host, c: Ctx, groups: seq<string>)
    requires Recoverable(was, h, c, groups, true) && c.doneIdentity && Free(TextOf(was.passwd), c.uid)
    ensures Owned(Lines(TextOf(h.passwd)), c.user, c.uid)
  {
    hide Places, EnteredUid, Entered, Free, Owned, EditGroups, AppendTo, Lines;
    LiveUid(was.passwd, h.passwd, c.user, c.uid);
  }

  lemma {:induction false} SetUpUid(c: Ctx, luck: Luck)
    ensures SetUp(c, luck).uid == luck.uid && SetUp(c, luck).doneIdentity
  {
  }

  /** The host and the session at some moment. */
  datatype Moment = Moment(host: Host, ctx: Ctx)

  function Code(ok: bool): (rc: int)
  {
    if ok then 0 else 1
  }

  lemma {:induction false} CodeIs()
    ensures Code(true) == 0 && Code(false) == 1
  {
  }

  predicate HomeMade(luck: Luck)
  {
    luck.mkdir && luck.chown && luck.mount
  }

  predicate AccountMade(luck: Luck)
  {
    luck.lock && luck.scan && luck.passwd && luck.group && luck.shadow
  }

  /** The setup gets to the home. */
  predicate EnterTried(luck: Luck)
  {
    luck.openTty && luck.moveTty && AccountMade(luck) && luck.mkdir
  }

  predicate Tried(luck: Luck, execMode: bool)
  {
    && luck.capture && luck.captureTty && luck.enter && luck.resolve
    && (execMode ==> luck.publishDir && luck.publish)
    && EnterTried(luck)
  }

  predicate EnterGood(luck: Luck, execMode: bool)
  {
    luck.openTty && luck.moveTty && AccountMade(luck) && HomeMade(luck) && (execMode ==> luck.marker)
  }

  /** No step fails. */
  predicate Good(luck: Luck, execMode: bool)
  {
    && luck.capture && luck.captureTty && luck.enter && luck.resolve
    && (execMode ==> luck.publishDir && luck.publish)
    && EnterGood(luck, execMode)
  }

  /** The session once its tty alias is bound. */
  function Bound(c: Ctx, execMode: bool): (r: Ctx)
  {
    c.(donePublish := execMode, doneCtty := true)
  }

  /** The session once everything is set up: it has its UID and its groups, and no longer the lock. */
  function SetUp(c: Ctx, luck: Luck): (r: Ctx)
  {
    c.(uid := luck.uid, inherited := Joins(luck.found, luck.adds), lockFd := false, doneAlloc := true,
       doneIdentity := true, doneInherit := true, doneHome := true, doneMount := true)
  }

  lemma {:induction false} HomeMadeIs(luck: Luck)
    ensures HomeMade(luck) == (luck.mkdir && luck.chown && luck.mount)
  {
  }

  lemma {:induction false} AccountMadeIs(luck: Luck)
    ensures AccountMade(luck) == (luck.lock && luck.scan && luck.passwd && luck.group && luck.shadow)
  {
  }

  lemma {:induction false} EnterGoodIs(luck: Luck, execMode: bool)
    ensures EnterGood(luck, execMode)
            == (luck.openTty && luck.moveTty && AccountMade(luck) && HomeMade(luck) && (execMode ==> luck.marker))
    ensures EnterTried(luck) == (luck.openTty && luck.moveTty && AccountMade(luck) && luck.mkdir)
  {
  }

  lemma {:induction false} GoodIs(luck: Luck, execMode: bool)
    ensures Good(luck, execMode)
            == (&& luck.capture && luck.captureTty && luck.enter && luck.resolve
                && (execMode ==> luck.publishDir && luck.publish)
                && EnterGood(luck, execMode))
    ensures Tried(luck, execMode)
            == (&& luck.capture && luck.captureTty && luck.enter && luck.resolve
                && (execMode ==> luck.publishDir && luck.publish)
                && EnterTried(luck))
    ensures EnterGood(luck, execMode) ==> luck.scan
  {
  }

  lemma {:induction false} SetUpIs(c: Ctx, luck: Luck)
    ensures SetUp(c, luck)
            == c.(uid := luck.uid, inherited := Joins(luck.found, luck.adds), lockFd := false, doneAlloc := true,
                  doneIdentity := true, doneInherit := true, doneHome := true, doneMount := true)
  {
  }

  lemma {:induction false} StillResolved(was: Host, c: Ctx, c': Ctx, fallback: string, execMode: bool)
    requires c == Fresh(c) && c' == c.(donePublish := c'.donePublish)
    ensures ResolvedUser(was, c', fallback) == ResolvedUser(was, c, fallback).(donePublish := c'.donePublish)
    ensures c'.donePublish == execMode ==>
              ResolvedUser(was, c', fallback).(doneCtty := true) == Bound(ResolvedUser(was, c, fallback), execMode)
    ensures As(c', ResolvedUser(was, c, fallback)) == ResolvedUser(was, c', fallback)
    ensures As(c', ResolvedUser(was, c, fallback)).home == ResolvedUser(was, c, fallback).home
    ensures c' == Fresh(c').(donePublish := c'.donePublish)
  {
    hide Lacks, Mark;
  }

  /** The files that say who may log in. */
  predicate SameLogins(h: Host, h': Host)
  {
    h'.passwd == h.passwd && h'.shadow == h.shadow
  }

  lemma {:induction false} LoginsSame(h: Host, h': Host)
    ensures SameLogins(h, h') == (h'.passwd == h.passwd && h'.shadow == h.shadow)
  {
  }

  lemma {:induction false} LoginsChain(h: Host, h': Host, h'': Host)
    requires SameLogins(h, h') && SameLogins(h', h'')
    ensures SameLogins(h, h'')
  {
  }

  predicate SameFiles(h: Host, h': Host)
  {
    h'.passwd == h.passwd && h'.shadow == h.shadow && h'.group == h.group
  }

  lemma {:induction false} SameStill(h: Host, h': Host)
    ensures SameFiles(h, h') == (h'.passwd == h.passwd && h'.shadow == h.shadow && h'.group == h.group)
  {
  }

  /** The session with another's names. */
  function As(c: Ctx, who: Ctx): (r: Ctx)
  {
    c.(user := who.user, home := who.home)
  }

  lemma {:induction false} AsIs(c: Ctx, who: Ctx)
    ensures As(c, who).uid == c.uid && As(c, who).home == who.home && As(c, c) == c
  {
  }

  lemma {:induction false} RolledBackIs(h: Host, c: Ctx)
    ensures RolledBack(h, c)
            == UndoPublish(UndoCtty(UndoLock(UndoIdentity(UndoGroups(UndoHome(UndoMount(h, c), c), c), c), c), c), c)
  {
  }

  /** Nothing was made yet that goes by the session's names. */
  predicate Nameless(c: Ctx)
  {
    !c.doneMount && !c.doneHome && !c.doneIdentity && !c.doneInherit
  }

  /** Until then rollback does not look at the names. */
  lemma {:induction false} NamesAreMoot(h: Host, c: Ctx, who: Ctx)
    requires Nameless(c)
    ensures RolledBack(h, As(c, who)) == RolledBack(h, c)
  {
    hide RemoveFrom, EditGroups;
  }

  lemma {:induction false} AsClean(was: Host, c: Ctx, c': Ctx, who: Ctx, groups: seq<string>)
    requires Clean(was, As(c, who), groups) && c'.ctty == c.ctty && c'.binary == c.binary
    ensures Clean(was, As(c', who), groups)
  {
    hide Clean;
    SameClean(was, As(c, who), As(c', who), groups);
  }

  lemma {:induction false} EarlyFlags(c: Ctx)
    requires c == Fresh(c).(donePublish := c.donePublish)
    ensures c.inherited == [] && !c.lockFd && !c.doneAlloc && !c.doneIdentity && !c.doneInherit && !c.doneHome &&
            !c.doneMount && !c.doneCtty
    ensures Nameless(c)
  {
  }

  lemma {:induction false} SettledName(was: Host, h: Host, c: Ctx, c': Ctx, who: Ctx, fallback: string)
    requires SameFiles(was, h) && c' == c.(doneCtty := true) && As(c, who) == ResolvedUser(was, c, fallback)
    requires c == Fresh(c).(donePublish := c.donePublish)
    ensures var r := ResolvedUser(h, c', fallback);
            r == As(c', who) && r == Fresh(r).(donePublish := r.donePublish, doneCtty := r.doneCtty) && r.uid == c.uid
            && r.home == As(c, who).home
  {
    hide Lacks, Mark;
  }

  /** Nothing was done yet: the host is what it was. */
  lemma {:induction false} StartOfRun(was: Host, c: Ctx, who: Ctx, fallback: string, groups: seq<string>)
    requires c == Fresh(c) && who == ResolvedUser(was, c, fallback) && Clean(was, who, groups)
    ensures As(c, who) == who && Recoverable(was, was, As(c, who), groups, false) && Restored(was, was, who.home, false)
    ensures SameFiles(was, was) && Nameless(c)
    ensures c == Fresh(c).(donePublish := c.donePublish)
    ensures !c.doneMount && !c.doneHome && !c.doneIdentity && !c.doneInherit && !c.donePublish
  {
    hide Lacks, Mark, Atom, AllRestorable, Entered, EnteredUid, EditGroups;
  }

  lemma {:induction false} SameClean(was: Host, c: Ctx, c': Ctx, groups: seq<string>)
    requires Clean(was, c, groups)
    requires c'.user == c.user && c'.home == c.home && c'.ctty == c.ctty && c'.binary == c.binary
    ensures Clean(was, c', groups)
  {
    hide Lacks, Atom, AllRestorable;
  }

  lemma {:induction false} FreshFlags(c: Ctx)
    requires c == Fresh(c).(donePublish := c.donePublish, doneCtty := c.doneCtty)
    ensures c.inherited == [] && !c.lockFd && !c.doneAlloc && !c.doneIdentity && !c.doneInherit && !c.doneHome &&
            !c.doneMount
  {
  }

  lemma {:induction false} CleanNames(was: Host, c: Ctx, groups: seq<string>)
    requires Clean(was, c, groups)
    ensures Atom(c.user) && |c.user| < 64
    ensures Lacks(TextOf(was.passwd), Mark(c.user)) && Lacks(TextOf(was.shadow), Mark(c.user)) &&
            Lacks(TextOf(was.group), Mark(c.user))
  {
    hide Lacks, Atom, AllRestorable, NewPlaces;
  }

  lemma {:induction false} NoGroupsYet(was: File, user: string, uid: nat)
    ensures EditGroups(AppendTo(was, GroupEntry(user, uid)), [], user, true) == AppendTo(was, GroupEntry(user, uid))
  {
    hide AppendTo, GroupEntry;
  }

  /** Before the entries are written the UID does not matter. */
  lemma {:induction false} NoAccountYet(was: Host, h: Host, h': Host, c: Ctx, c': Ctx, groups: seq<string>)
    requires Accounts(was, h, c, groups) && h'.passwd == h.passwd && h'.shadow == h.shadow && h'.group == h.group
    requires c'.user == c.user && c'.inherited == c.inherited
    requires !c.doneIdentity && !c'.doneIdentity && c'.doneInherit == c.doneInherit
    ensures Accounts(was, h', c', groups)
  {
    hide Entered, EnteredUid, RestoredFile, EditGroups, AppendTo;
  }

  lemma {:induction false} SamePlaces(was: Host, h: Host, h': Host, c: Ctx, c': Ctx, tried: bool)
    requires Places(was, h, c, tried) && h'.dirs == h.dirs && h'.full == h.full && h'.mounts == h.mounts &&
             h'.files == h.files
    requires h'.locked == h.locked && h'.active == h.active && h'.ended == h.ended
    requires c'.home == c.home && c'.ctty == c.ctty && c'.binary == c.binary && c'.lockFd == c.lockFd
    requires c'.doneHome == c.doneHome && c'.doneMount == c.doneMount && c'.doneCtty == c.doneCtty
    requires c'.donePublish == c.donePublish && c'.doneAlloc == c.doneAlloc
    ensures Places(was, h', c', tried)
  {
    hide Mine, Ours;
  }

  /** The account files and what is said of them do not depend on the rest. */
  lemma {:induction false} SameAccounts(was: Host, h: Host, h': Host, c: Ctx, c': Ctx, groups: seq<string>)
    requires Accounts(was, h, c, groups) && h'.passwd == h.passwd && h'.shadow == h.shadow && h'.group == h.group
    requires c'.user == c.user && c'.uid == c.uid && c'.inherited == c.inherited
    requires c'.doneIdentity == c.doneIdentity && c'.doneInherit == c.doneInherit
    ensures Accounts(was, h', c', groups)
  {
    hide Entered, EnteredUid, RestoredFile, EditGroups, AppendTo;
  }
}
