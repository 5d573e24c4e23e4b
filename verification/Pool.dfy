/**
 The pool of file browser helpers: callers that acquire and release, goroutines that
 drop, reap, kill and notice exits, interleaved at the places where the mutex is free.
 Time is left to chance: a helper that nobody uses may be reaped at any moment.
 */
module Pool {
  type Container = string
  type Id = nat

  datatype Process = Running | Killed | Exited

  datatype Helper = Helper(container: Container, inflight: nat, dead: bool, process: Process)

  /**
   `table` is the pool's map and `helpers` every helper that was ever started. The
   rest is where calls and goroutines stand: helpers owned by an `Acquire` that is
   about to insert them, calls about to join a helper they found (the unlocked window
   while they kill their own), handles given out and not released, and helpers that a
   goroutine is about to kill.
   */
  datatype State = State(
    table: map<Container, Id>, helpers: map<Id, Helper>, owned: set<Id>, joining: multiset<Id>,
    handles: multiset<Id>, toKill: set<Id>, stopped: bool)

  datatype Step =
    | Reuse(container: Container)
    | Spawn(container: Container, id: Id)
    | SpawnFailed(container: Container, id: Id)
    | Insert(id: Id)
    | Join(id: Id)
    | Release(id: Id)
    | Drop(id: Id)
    | Reap(container: Container)
    | Close
    | Kill(id: Id)
    | Exit(id: Id)
    | Noticed(id: Id)

  predicate InTable(s: State, id: Id)
    requires id in s.helpers
  {
    var c := s.helpers[id].container;
    c in s.table && s.table[c] == id
  }

  function With(s: State, id: Id, h: Helper): (t: State)
  {
    s.(helpers := s.helpers[id := h])
  }

  /** `inflight++` and the handle that the caller gets for it. */
  function HandOut(s: State, id: Id): (t: State)
    requires id in s.helpers
  {
    With(s, id, s.helpers[id].(inflight := s.helpers[id].inflight + 1)).(handles := s.handles + multiset{id})
  }

  /** The table without the helper, if it is there. */
  function Untabled(s: State, id: Id): (r: map<Container, Id>)
    requires id in s.helpers
  {
    if InTable(s, id) then s.table - {s.helpers[id].container} else s.table
  }

  /** Out of the table, dead, and next to be killed. */
  function Condemn(s: State, id: Id): (t: State)
    requires id in s.helpers
  {
    With(s, id, s.helpers[id].(dead := true)).(table := Untabled(s, id), toKill := s.toKill + {id})
  }

  predicate Takes(s: State, step: Step, t: State)
  {
    match step
    case Reuse(c) =>
      && !s.stopped && c in s.table && s.table[c] in s.helpers && !s.helpers[s.table[c]].dead
      && t == HandOut(s, s.table[c])
    case Spawn(c, id) => id !in s.helpers && t == With(s, id, Helper(c, 0, false, Running)).(owned := s.owned + {id})
    case SpawnFailed(c, id) => id !in s.helpers && t == With(s, id, Helper(c, 0, false, Killed))
    case Insert(id) =>
      id in s.owned && id in s.helpers &&
      var c := s.helpers[id].container;
      if c in s.table && s.table[c] in s.helpers && !s.helpers[s.table[c]].dead then
        t == s.(owned := s.owned - {id}, toKill := s.toKill + {id}, joining := s.joining + multiset{s.table[c]})
      else
        t == HandOut(s.(owned := s.owned - {id}, table := s.table[c := id]), id)
    case Join(id) => id in s.joining && id in s.helpers && t == HandOut(s.(joining := s.joining - multiset{id}), id)
    case Release(id) =>
      id in s.handles && id in s.helpers &&
      var h := s.helpers[id];
      var fewer := if h.inflight > 0 then h.inflight - 1 else 0;
      t == With(s, id, h.(inflight := fewer)).(handles := s.handles - multiset{id})
    case Drop(id) => id in s.helpers && t == Condemn(s, id)
    case Reap(c) =>
      && c in s.table && s.table[c] in s.helpers && s.helpers[s.table[c]].inflight == 0
      && t == Condemn(s, s.table[c])
    case Close => !s.stopped && t == s.(stopped := true, table := map[], toKill := s.toKill + s.table.Values)
    case Kill(id) =>
      id in s.toKill && id in s.helpers &&
      var h := s.helpers[id];
      t == With(s, id, h.(process := if h.process == Running then Killed else h.process)).(toKill := s.toKill - {id})
    case Exit(id) => id in s.helpers && t == With(s, id, s.helpers[id].(process := Exited))
    case Noticed(id) =>
      id in s.helpers && s.helpers[id].process == Exited &&
      t == With(s, id, s.helpers[id].(dead := true)).(table := Untabled(s, id))
  }

  const EMPTY: State := State(map[], map[], {}, multiset{}, multiset{}, {}, false)

  ghost predicate Next(s: State, t: State)
  {
    exists step :: Takes(s, step, t)
  }

  ghost predicate Run(states: seq<State>)
  {
    |states| > 0 && states[0] == EMPTY && forall k | 0 < k < |states| :: Next(states[k - 1], states[k])
  }

  // ----- the invariant

  /** The table maps each container to one of its helpers. */
  ghost predicate TableOk(s: State)
  {
    forall c | c in s.table :: s.table[c] in s.helpers && s.helpers[s.table[c]].container == c
  }

  /**
   `inflight` counts the handles; a running helper is in the table, owned, or about
   to be killed, and the last if it is dead; an owned one is nobody else's.
   */
  predicate HelperOk(s: State, id: Id)
    requires id in s.helpers
  {
    var h := s.helpers[id];
    && h.inflight == s.handles[id]
    && (h.process == Running ==> InTable(s, id) || id in s.owned || id in s.toKill)
    && (h.process == Running && h.dead ==> id in s.toKill)
    && (id in s.owned ==> h.inflight == 0 && !InTable(s, id))
  }

  ghost predicate Known(s: State)
  {
    && s.owned <= s.helpers.Keys && s.toKill <= s.helpers.Keys
    && (forall id | id in s.joining :: id in s.helpers && id !in s.owned)
    && (forall id | id in s.handles :: id in s.helpers)
  }

  ghost predicate Inv(s: State)
  {
    TableOk(s) && Known(s) && forall id | id in s.helpers :: HelperOk(s, id)
  }

  // ----- each kind of change keeps it

  lemma {:induction false} HandOutKeeps(s: State, id: Id)
    requires Inv(s) && id in s.helpers && id !in s.owned
    ensures Inv(HandOut(s, id))
  {
    var t := HandOut(s, id);
    assert TableOk(t) && Known(t);
    forall x | x in t.helpers ensures HelperOk(t, x) {
      assert HelperOk(s, x);
    }
  }

  lemma {:induction false} CondemnKeeps(s: State, id: Id)
    requires Inv(s) && id in s.helpers
    ensures Inv(Condemn(s, id))
  {
    var t := Condemn(s, id);
    assert TableOk(t) && Known(t);
    forall x | x in t.helpers ensures HelperOk(t, x) {
      assert HelperOk(s, x);
    }
  }

  lemma {:induction false} NoticedKeeps(s: State, id: Id, t: State)
    requires Inv(s) && Takes(s, Noticed(id), t)
    ensures Inv(t)
  {
    assert TableOk(t) && Known(t);
    forall x | x in t.helpers ensures HelperOk(t, x) {
      assert HelperOk(s, x);
    }
  }

  lemma {:induction false} SpawnKeeps(s: State, step: Step, t: State)
    requires Inv(s) && Takes(s, step, t) && (step.Spawn? || step.SpawnFailed?)
    ensures Inv(t)
  {
    assert TableOk(t) && Known(t);
    assert s.handles[step.id] == 0;
    forall x | x in t.helpers ensures HelperOk(t, x) {
      if x != step.id {
        assert HelperOk(s, x);
      }
    }
  }

  /** The helper gets its place; whatever had it was dead. */
  lemma {:induction false} PlacedKeeps(s: State, id: Id)
    requires Inv(s) && id in s.owned && id in s.helpers
    requires var c := s.helpers[id].container; c in s.table ==> s.table[c] in s.helpers && s.helpers[s.table[c]].dead
    ensures Inv(s.(owned := s.owned - {id}, table := s.table[s.helpers[id].container := id]))
  {
    var t := s.(owned := s.owned - {id}, table := s.table[s.helpers[id].container := id]);
    assert TableOk(t) && Known(t);
    forall x | x in t.helpers ensures HelperOk(t, x) {
      assert HelperOk(s, x);
    }
  }

  lemma {:induction false} YieldKeeps(s: State, id: Id, other: Id)
    requires Inv(s) && id in s.owned && id in s.helpers && other in s.helpers && InTable(s, other)
    ensures Inv(s.(owned := s.owned - {id}, toKill := s.toKill + {id}, joining := s.joining + multiset{other}))
  {
    var t := s.(owned := s.owned - {id}, toKill := s.toKill + {id}, joining := s.joining + multiset{other});
    assert HelperOk(s, other);
    assert TableOk(t) && Known(t);
    forall x | x in t.helpers ensures HelperOk(t, x) {
      assert HelperOk(s, x);
    }
  }

  lemma {:induction false} InsertKeeps(s: State, id: Id, t: State)
    requires Inv(s) && Takes(s, Insert(id), t)
    ensures Inv(t)
  {
    hide Inv, HandOut, HelperOk;
    InvTable(s);
    var c := s.helpers[id].container;
    if c in s.table && s.table[c] in s.helpers && !s.helpers[s.table[c]].dead {
      YieldKeeps(s, id, s.table[c]);
    } else {
      PlacedKeeps(s, id);
      HandOutKeeps(s.(owned := s.owned - {id}, table := s.table[c := id]), id);
    }
  }

  lemma {:induction false} InvTable(s: State)
    requires Inv(s)
    ensures TableOk(s) && Known(s)
  {
  }

  lemma {:induction false} JoinKeeps(s: State, id: Id)
    requires Inv(s) && id in s.joining
    ensures id in s.helpers && id !in s.owned && Inv(s.(joining := s.joining - multiset{id}))
  {
    var t := s.(joining := s.joining - multiset{id});
    assert TableOk(t) && Known(t);
    forall x | x in t.helpers ensures HelperOk(t, x) {
      assert HelperOk(s, x);
    }
  }

  lemma {:induction false} ReleaseKeeps(s: State, id: Id, t: State)
    requires Inv(s) && Takes(s, Release(id), t)
    ensures Inv(t)
  {
    assert TableOk(t) && Known(t);
    forall x | x in t.helpers ensures HelperOk(t, x) {
      assert HelperOk(s, x);
    }
  }

  lemma {:induction false} CloseKeeps(s: State, t: State)
    requires Inv(s) && Takes(s, Close, t)
    ensures Inv(t)
  {
    assert TableOk(t) && Known(t);
    forall x | x in t.helpers ensures HelperOk(t, x) {
      assert HelperOk(s, x);
      if InTable(s, x) {
        assert x in s.table.Values;
      }
    }
  }

  lemma {:induction false} KillKeeps(s: State, step: Step, t: State)
    requires Inv(s) && Takes(s, step, t) && (step.Kill? || step.Exit?)
    ensures Inv(t)
  {
    assert TableOk(t) && Known(t);
    forall x | x in t.helpers ensures HelperOk(t, x) {
      assert HelperOk(s, x);
    }
  }

  lemma {:induction false} TabledIsFree(s: State, c: Container)
    requires Inv(s) && c in s.table
    ensures s.table[c] in s.helpers && s.table[c] !in s.owned && InTable(s, s.table[c])
  {
    assert HelperOk(s, s.table[c]);
  }

  lemma {:induction false} StepKeepsInv(s: State, step: Step, t: State)
    requires Inv(s) && Takes(s, step, t)
    ensures Inv(t)
  {
    hide Inv, HandOut, Condemn, With, InTable;
    match step
    case Reuse(c) =>
      TabledIsFree(s, c);
      HandOutKeeps(s, s.table[c]);
    case Spawn(_, _) => SpawnKeeps(s, step, t);
    case SpawnFailed(_, _) => SpawnKeeps(s, step, t);
    case Insert(id) => InsertKeeps(s, id, t);
    case Join(id) =>
      JoinKeeps(s, id);
      HandOutKeeps(s.(joining := s.joining - multiset{id}), id);
    case Release(id) => ReleaseKeeps(s, id, t);
    case Drop(id) => CondemnKeeps(s, id);
    case Reap(c) => CondemnKeeps(s, s.table[c]);
    case Close => CloseKeeps(s, t);
    case Kill(_) => KillKeeps(s, step, t);
    case Exit(_) => KillKeeps(s, step, t);
    case Noticed(id) => NoticedKeeps(s, id, t);
  }

  lemma {:induction false} RunKeepsInv(states: seq<State>, k: nat)
    requires Run(states) && k < |states|
    ensures Inv(states[k])
  {
    hide Takes;
    if k == 0 {
      assert Inv(EMPTY);
    } else {
      hide Inv;
      RunKeepsInv(states, k - 1);
      assert Next(states[k - 1], states[k]);
      var step :| Takes(states[k - 1], step, states[k]);
      StepKeepsInv(states[k - 1], step, states[k]);
    }
  }

  // ----- what that means

  /** In every state of every run `inflight` is the number of handles that are out. */
  lemma {:induction false} InflightIsHandles(states: seq<State>, k: nat, id: Id)
    requires Run(states) && k < |states| && id in states[k].helpers
    ensures states[k].helpers[id].inflight == states[k].handles[id]
  {
    hide Run;
    RunKeepsInv(states, k);
    assert HelperOk(states[k], id);
  }

  /** ... so the reaper only takes a helper that nobody holds. */
  lemma {:induction false} ReaperTakesUnheld(states: seq<State>, k: nat, c: Container)
    requires Run(states) && 0 < k < |states| && Takes(states[k - 1], Reap(c), states[k])
    ensures c in states[k - 1].table && states[k - 1].handles[states[k - 1].table[c]] == 0
  {
    hide Run;
    InflightIsHandles(states, k - 1, states[k - 1].table[c]);
  }

  /** No process is lost: a running one is in the table, owned, or about to be killed. */
  lemma {:induction false} NoProcessLost(states: seq<State>, k: nat, id: Id)
    requires Run(states) && k < |states| && id in states[k].helpers && states[k].helpers[id].process == Running
    ensures var s := states[k]; InTable(s, id) || id in s.owned || id in s.toKill
  {
    hide Run;
    RunKeepsInv(states, k);
    assert HelperOk(states[k], id);
  }

  // ----- when a helper that is handed out is dead

  /** The step gives out a handle on the helper. */
  predicate HandsOut(s: State, t: State, id: Id)
  {
    id in t.helpers && t.handles[id] > s.handles[id]
  }

  /** The step condemns the helper: drops it, reaps it, or notices that its process ended. */
  predicate Condemns(s: State, step: Step, id: Id)
  {
    || step == Drop(id)
    || step == Noticed(id)
    || (step.Reap? && step.container in s.table && s.table[step.container] == id)
  }

  /** A helper is handed out dead exactly by a call that was about to join or insert it when it died. */
  lemma {:induction false} HandedOutDead(s: State, step: Step, t: State, id: Id)
    requires Takes(s, step, t) && HandsOut(s, t, id)
    ensures id in s.helpers
    ensures t.helpers[id].dead <==> (step == Join(id) || step == Insert(id)) && s.helpers[id].dead
  {
  }

  /** A helper becomes dead by being condemned, and stays dead. */
  lemma {:induction false} DeadStep(s: State, step: Step, t: State, id: Id)
    requires Takes(s, step, t) && id in t.helpers
    ensures t.helpers[id].dead <==> id in s.helpers && (s.helpers[id].dead || Condemns(s, step, id))
  {
    hide HandOut, Condemn, InTable, Untabled;
    match step
    case Reuse(c) => HandOutView(s, s.table[c], id);
    case Noticed(x) => NoticedView(s, x, t, id);
    case Insert(x) => InsertView(s, x, t, id);
    case Join(x) => HandOutView(s.(joining := s.joining - multiset{x}), x, id);
    case Drop(x) => CondemnView(s, x, id);
    case Reap(c) => CondemnView(s, s.table[c], id);
    case _ =>
  }

  lemma {:induction false} HandOutView(s: State, x: Id, id: Id)
    requires x in s.helpers
    ensures var t := HandOut(s, x);
            t.helpers.Keys == s.helpers.Keys && (id in s.helpers ==> t.helpers[id].dead == s.helpers[id].dead)
  {
  }

  lemma {:induction false} CondemnView(s: State, x: Id, id: Id)
    requires x in s.helpers
    ensures var t := Condemn(s, x);
            && t.helpers.Keys == s.helpers.Keys && t.joining == s.joining && t.owned == s.owned
            && (id in s.helpers ==> t.helpers[id].dead == (s.helpers[id].dead || id == x))
  {
  }

  lemma {:induction false} InsertView(s: State, x: Id, t: State, id: Id)
    requires Takes(s, Insert(x), t)
    ensures t.helpers.Keys == s.helpers.Keys && (id in s.helpers ==> t.helpers[id].dead == s.helpers[id].dead)
  {
    hide HandOut;
    HandOutView(s.(owned := s.owned - {x}, table := s.table[s.helpers[x].container := x]), x, id);
  }

  lemma {:induction false} NoticedView(s: State, x: Id, t: State, id: Id)
    requires Takes(s, Noticed(x), t)
    ensures t.helpers.Keys == s.helpers.Keys
    ensures id in s.helpers ==> t.helpers[id].dead == (s.helpers[id].dead || id == x)
  {
    hide Untabled;
  }

  /** Nobody finds or starts a dead helper: a call about to join or insert it was so before. */
  lemma {:induction false} WindowStep(s: State, step: Step, t: State, id: Id)
    requires Takes(s, step, t) && id in s.helpers && (s.helpers[id].dead || Condemns(s, step, id))
    ensures id in t.helpers && (id in t.joining ==> id in s.joining) && (id in t.owned ==> id in s.owned)
  {
    hide Condemn, InTable, Untabled;
    match step
    case Drop(_) => CondemnView(s, step.id, id);
    case Reap(c) => CondemnView(s, s.table[c], id);
    case _ =>
  }

  /** At this point of the run the helper was condemned, while it was not dead yet. */
  ghost predicate CondemnedAt(states: seq<State>, j: nat, id: Id)
    requires j + 1 < |states|
  {
    && id in states[j].helpers && !states[j].helpers[id].dead
    && exists step :: Takes(states[j], step, states[j + 1]) && Condemns(states[j], step, id)
  }

  /** A dead helper was condemned once, and whoever is about to join or insert it was so then. */
  lemma {:induction false} DeadWasCondemned(states: seq<State>, k: nat, id: Id) returns (j: nat)
    requires Run(states) && k < |states| && id in states[k].helpers && states[k].helpers[id].dead
    ensures j < k && CondemnedAt(states, j, id)
    ensures id in states[k].joining ==> id in states[j].joining
    ensures id in states[k].owned ==> id in states[j].owned
  {
    hide Takes, Condemns;
    if k == 0 {
      assert false;
    }
    var s, t := states[k - 1], states[k];
    assert Next(s, t);
    var step :| Takes(s, step, t);
    DeadStep(s, step, t, id);
    WindowStep(s, step, t, id);
    if s.helpers[id].dead {
      j := DeadWasCondemned(states, k - 1, id);
    } else {
      j := k - 1;
      assert states[j + 1] == t;
    }
  }

  /** Once condemned, a helper is dead for good. */
  lemma {:induction false} CondemnedStaysDead(states: seq<State>, j: nat, k: nat, id: Id)
    requires Run(states) && j < k < |states| && CondemnedAt(states, j, id)
    ensures id in states[k].helpers && states[k].helpers[id].dead
  {
    hide Takes, Condemns;
    var s, t := states[k - 1], states[k];
    if k == j + 1 {
      var step :| Takes(s, step, t) && Condemns(s, step, id);
      WindowStep(s, step, t, id);
      DeadStep(s, step, t, id);
    } else {
      CondemnedStaysDead(states, j, k - 1, id);
      assert Next(s, t);
      var step :| Takes(s, step, t);
      WindowStep(s, step, t, id);
      DeadStep(s, step, t, id);
    }
  }

  /**
   In every run, a step hands out a dead helper exactly when it joins or inserts one
   that was condemned at an earlier step, while the call was already about to join it
   (the unlocked window) or before it had inserted it. The fast path never does.
   */
  lemma {:induction false} DeadExactly(states: seq<State>, k: nat, step: Step, id: Id)
    requires Run(states) && 0 < k < |states| && Takes(states[k - 1], step, states[k])
    requires HandsOut(states[k - 1], states[k], id)
    ensures states[k].helpers[id].dead
            <==> || (step == Join(id)
                     && exists j :: 0 <= j < k - 1 && CondemnedAt(states, j, id) && id in states[j].joining)
                 || (step == Insert(id)
                     && exists j :: 0 <= j < k - 1 && CondemnedAt(states, j, id) && id in states[j].owned)
    ensures step.Reuse? ==> !states[k].helpers[id].dead
  {
    var s, t := states[k - 1], states[k];
    HandedOutDead(s, step, t, id);
    assert step == Join(id) ==> id in s.joining;
    assert step == Insert(id) ==> id in s.owned;
    hide Takes, CondemnedAt, Run;
    if t.helpers[id].dead {
      var j := DeadWasCondemned(states, k - 1, id);
    }
    forall j | 0 <= j < k - 1 && CondemnedAt(states, j, id) ensures s.helpers[id].dead {
      CondemnedStaysDead(states, j, k - 1, id);
    }
  }

  // ----- both ways to be handed a dead helper

  /** Two calls race for a container; the loser's find is reaped before it joins. */
  function Window(c: Container, k: nat): (s: State)
    requires k < 8
  {
    var up, used := Helper(c, 0, false, Running), Helper(c, 1, false, Running);
    match k
    case 0 => EMPTY
    case 1 => EMPTY.(helpers := map[0 := up], owned := {0})
    case 2 => EMPTY.(helpers := map[0 := up, 1 := up], owned := {0, 1})
    case 3 => EMPTY.(helpers := map[0 := used, 1 := up], owned := {1}, table := map[c := 0], handles := multiset{0})
    case 4 => EMPTY.(helpers := map[0 := up, 1 := up], owned := {1}, table := map[c := 0])
    case 5 => EMPTY.(helpers := map[0 := up, 1 := up], table := map[c := 0], toKill := {1}, joining := multiset{0})
    case 6 => EMPTY.(helpers := map[0 := up.(dead := true), 1 := up], toKill := {0, 1}, joining := multiset{0})
    case _ => EMPTY.(helpers := map[0 := used.(dead := true), 1 := up], toKill := {0, 1}, handles := multiset{0})
  }

  lemma {:induction false} Opens(c: Container)
    ensures Takes(Window(c, 0), Spawn(c, 0), Window(c, 1)) && Takes(Window(c, 1), Spawn(c, 1), Window(c, 2))
  {
  }

  lemma {:induction false} Inserts(c: Container)
    ensures Takes(Window(c, 2), Insert(0), Window(c, 3))
  {
    assert {0, 1} - {0} == {1};
  }

  lemma {:induction false} Releases(c: Container)
    ensures Takes(Window(c, 3), Release(0), Window(c, 4))
  {
  }

  lemma {:induction false} Yields(c: Container)
    ensures Takes(Window(c, 4), Insert(1), Window(c, 5))
  {
  }

  lemma {:induction false} Reaps(c: Container)
    ensures Takes(Window(c, 5), Reap(c), Window(c, 6))
  {
  }

  lemma {:induction false} Joins(c: Container)
    ensures Takes(Window(c, 6), Join(0), Window(c, 7))
  {
  }

  /**
   While a call that lost the race kills its own helper, the one it found may be
   reaped: the call then hands out a helper that is dead and no longer in the table.
   */
  lemma {:induction false} DeadHelperHandedOut(c: Container)
    ensures Run(seq(8, k requires 0 <= k < 8 => Window(c, k)))
    ensures var s := Window(c, 7); 0 in s.helpers && s.helpers[0].dead && c !in s.table && s.handles[0] == 1
  {
    hide Takes;
    Opens(c);
    Inserts(c);
    Releases(c);
    Yields(c);
    Reaps(c);
    Joins(c);
    var states := seq(8, k requires 0 <= k < 8 => Window(c, k));
    assert Window(c, 0) == EMPTY;
    hide Window;
    forall k | 0 < k < 8 ensures Next(states[k - 1], states[k]) {
      assert states[k - 1] == Window(c, k - 1) && states[k] == Window(c, k);
    }
  }

  /** A helper whose process ends before it is inserted. */
  function Stillborn(c: Container, k: nat): (s: State)
    requires k < 5
  {
    var up := Helper(c, 0, false, Running);
    match k
    case 0 => EMPTY
    case 1 => EMPTY.(helpers := map[0 := up], owned := {0})
    case 2 => EMPTY.(helpers := map[0 := up.(process := Exited)], owned := {0})
    case 3 => EMPTY.(helpers := map[0 := up.(process := Exited, dead := true)], owned := {0})
    case _ => EMPTY.(helpers := map[0 := up.(process := Exited, dead := true, inflight := 1)], table := map[c := 0],
                     handles := multiset{0})
  }

  lemma {:induction false} Dies(c: Container)
    ensures Takes(Stillborn(c, 0), Spawn(c, 0), Stillborn(c, 1)) && Takes(Stillborn(c, 1), Exit(0), Stillborn(c, 2))
    ensures Takes(Stillborn(c, 2), Noticed(0), Stillborn(c, 3))
  {
  }

  lemma {:induction false} InsertsAnyway(c: Container)
    ensures Takes(Stillborn(c, 3), Insert(0), Stillborn(c, 4))
  {
  }

  /**
   `Acquire` does not look at its own helper again before it inserts it: one that ended
   in the meantime is handed out dead, and stays in the table.
   */
  lemma {:induction false} StillbornHandedOut(c: Container)
    ensures Run(seq(5, k requires 0 <= k < 5 => Stillborn(c, k)))
    ensures var s := Stillborn(c, 4); 0 in s.helpers && s.helpers[0].dead && s.table == map[c := 0] && s.handles[0] == 1
  {
    hide Takes;
    Dies(c);
    InsertsAnyway(c);
    var states := seq(5, k requires 0 <= k < 5 => Stillborn(c, k));
    assert Stillborn(c, 0) == EMPTY;
    hide Stillborn;
    forall k | 0 < k < 5 ensures Next(states[k - 1], states[k]) {
      assert states[k - 1] == Stillborn(c, k - 1) && states[k] == Stillborn(c, k);
    }
  }

  // ----- leaving the table

  /** A helper that is condemned is dead and out of the table at once; unless its process ended, it will be killed. */
  lemma {:induction false} CondemnedLeaves(s: State, step: Step, t: State, id: Id)
    requires Takes(s, step, t) && Condemns(s, step, id)
    ensures id in t.helpers && t.helpers[id].dead && !InTable(t, id)
    ensures !step.Noticed? ==> id in t.toKill
    ensures forall c | c in s.table && s.table[c] != id && (id !in s.helpers || c != s.helpers[id].container) ::
              c in t.table && t.table[c] == s.table[c]
  {
  }

  /** Closing the pool empties the table and leaves every helper that was in it to be killed. */
  lemma {:induction false} CloseEmpties(s: State, t: State)
    requires Takes(s, Close, t)
    ensures t.stopped && t.table == map[] && forall c | c in s.table :: s.table[c] in t.toKill
  {
  }

  /** Afterwards only a call that was already under way hands out a helper. */
  lemma {:induction false} StoppedHandsOut(s: State, step: Step, t: State, id: Id)
    requires Takes(s, step, t) && s.stopped && HandsOut(s, t, id)
    ensures step == Join(id) || step == Insert(id)
  {
  }

  /** A helper whose turn to be killed has come no longer runs. */
  lemma {:induction false} KilledStops(s: State, id: Id, t: State)
    requires Takes(s, Kill(id), t)
    ensures id in t.helpers && t.helpers[id].process != Running && id !in t.toKill
  {
  }
}
