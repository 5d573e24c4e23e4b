/**
 The stale-while-revalidate cache of lookup results: readers, blocking fetches and
 background refreshes interleave at the lock. Times and durations are nanoseconds.
 */
module Cache {
  type Key = string
  type Value = string

  const MIN_TTL: int := 30_000_000_000
  const MAX_TTL: int := 1_800_000_000_000
  const FALLBACK_TTL: int := 300_000_000_000

  /** Brings a TTL between the floor and the ceiling, and leaves it alone if it is there. */
  function ClampTTL(ttl: int): (r: int)
    ensures MIN_TTL <= r <= MAX_TTL
    ensures MIN_TTL <= ttl <= MAX_TTL ==> r == ttl
    ensures r != ttl ==> r == if ttl < MIN_TTL then MIN_TTL else MAX_TTL
  {
    if ttl < MIN_TTL then MIN_TTL else if ttl > MAX_TTL then MAX_TTL else ttl
  }

  datatype Entry = Entry(value: Value, ttl: int, fetchedAt: int)

  predicate Expired(e: Entry, now: int)
  {
    now - e.fetchedAt >= e.ttl
  }

  predicate Stale(e: Entry, now: int)
  {
    2 * (now - e.fetchedAt) >= e.ttl
  }

  // ----- calls and background tasks

  /** A call of `cachedFetch`: what it is about to do. */
  datatype Call =
    | Checking(key: Key, found: Entry)
    | Refreshing(key: Key, found: Entry)
    | Resolving(key: Key)
    | Storing(key: Key, fetched: Entry)

  datatype Task = Fetching(key: Key) | Keeping(key: Key, entry: Entry) | Ending(key: Key)

  /** A result that some resolve for the key returned, with its TTL, and when it returned. */
  datatype Resolved = Resolved(key: Key, value: Value, ttl: int, at: int)

  /** A result that was served from the cache, and when its age was checked. */
  datatype Served = Served(key: Key, entry: Entry, checkedAt: int)

  /**
   The cache, the clock, every call and task by number, and two records of what
   happened: the results of resolves, and what was served from the cache.
   */
  datatype State = State(
    entries: map<Key, Entry>, refreshing: set<Key>, now: int, calls: map<nat, Call>, tasks: map<nat, Task>,
    resolved: set<Resolved>, served: set<Served>)

  datatype Step =
    | Tick(later: int)
    | Look(call: nat, key: Key)
    | Check(call: nat)
    | StartRefresh(call: nat, task: nat)
    | Resolve(call: nat, value: Value, raw: int, known: bool)
    | Store(call: nat)
    | TaskResolve(task: nat, value: Value, raw: int, known: bool)
    | TaskStore(task: nat)
    | TaskEnd(task: nat)

  /** The TTL that a resolve returns: that of the records found, clamped, or the fallback. */
  function TTLOf(raw: int, known: bool): (r: int)
    ensures 0 < r <= MAX_TTL
  {
    if known then ClampTTL(raw) else FALLBACK_TTL
  }

  predicate Takes(s: State, step: Step, t: State)
  {
    match step
    case Tick(later) => later >= s.now && t == s.(now := later)
    case Look(c, k) =>
      c !in s.calls &&
      t == s.(calls := s.calls[c := if k in s.entries then Checking(k, s.entries[k]) else Resolving(k)])
    case Check(c) =>
      c in s.calls && s.calls[c].Checking? &&
      var k, e := s.calls[c].key, s.calls[c].found;
      if Expired(e, s.now) then t == s.(calls := s.calls[c := Resolving(k)])
      else t == s.(calls := if Stale(e, s.now) then s.calls[c := Refreshing(k, e)] else s.calls - {c},
                   served := s.served + {Served(k, e, s.now)})
    case StartRefresh(c, i) =>
      c in s.calls && s.calls[c].Refreshing? && i !in s.tasks &&
      var k := s.calls[c].key;
      if k in s.refreshing then t == s.(calls := s.calls - {c})
      else t == s.(calls := s.calls - {c}, refreshing := s.refreshing + {k}, tasks := s.tasks[i := Fetching(k)])
    case Resolve(c, v, raw, known) =>
      c in s.calls && s.calls[c].Resolving? &&
      var k, ttl := s.calls[c].key, TTLOf(raw, known);
      t == s.(calls := s.calls[c := Storing(k, Entry(v, ttl, s.now))],
              resolved := s.resolved + {Resolved(k, v, ttl, s.now)})
    case Store(c) =>
      c in s.calls && s.calls[c].Storing? &&
      t == s.(calls := s.calls - {c}, entries := s.entries[s.calls[c].key := s.calls[c].fetched])
    case TaskResolve(i, v, raw, known) =>
      i in s.tasks && s.tasks[i].Fetching? &&
      var k, ttl := s.tasks[i].key, TTLOf(raw, known);
      t == s.(tasks := s.tasks[i := Keeping(k, Entry(v, ttl, s.now))],
              resolved := s.resolved + {Resolved(k, v, ttl, s.now)})
    case TaskStore(i) =>
      i in s.tasks && s.tasks[i].Keeping? &&
      t == s.(tasks := s.tasks[i := Ending(s.tasks[i].key)], entries := s.entries[s.tasks[i].key := s.tasks[i].entry])
    case TaskEnd(i) =>
      i in s.tasks && s.tasks[i].Ending? &&
      t == s.(tasks := s.tasks - {i}, refreshing := s.refreshing - {s.tasks[i].key})
  }

  ghost predicate Next(s: State, t: State)
  {
    exists step :: Takes(s, step, t)
  }

  predicate Initial(s: State)
  {
    s == State(map[], {}, s.now, map[], map[], {}, {})
  }

  ghost predicate Run(states: seq<State>)
  {
    |states| > 0 && Initial(states[0]) && forall k | 0 < k < |states| :: Next(states[k - 1], states[k])
  }

  // ----- one background task for each key that is refreshing

  ghost predicate TasksOk(s: State)
  {
    && (forall i | i in s.tasks :: s.tasks[i].key in s.refreshing)
    && (forall k | k in s.refreshing :: exists i :: i in s.tasks && s.tasks[i].key == k)
    && (forall i, j | i in s.tasks && j in s.tasks && i != j :: s.tasks[i].key != s.tasks[j].key)
  }

  lemma {:induction false} StartKeepsTasks(s: State, i: nat, k: Key)
    requires TasksOk(s) && i !in s.tasks && k !in s.refreshing
    ensures TasksOk(s.(refreshing := s.refreshing + {k}, tasks := s.tasks[i := Fetching(k)]))
  {
    var t := s.(refreshing := s.refreshing + {k}, tasks := s.tasks[i := Fetching(k)]);
    forall x | x in t.refreshing ensures exists j :: j in t.tasks && t.tasks[j].key == x {
      if x == k {
        assert i in t.tasks && t.tasks[i].key == k;
      } else {
        var j :| j in s.tasks && s.tasks[j].key == x;
        assert j in t.tasks && t.tasks[j].key == x;
      }
    }
  }

  lemma {:induction false} MoveKeepsTasks(s: State, i: nat, w: Task)
    requires TasksOk(s) && i in s.tasks && w.key == s.tasks[i].key
    ensures TasksOk(s.(tasks := s.tasks[i := w]))
  {
    var t := s.(tasks := s.tasks[i := w]);
    forall x | x in t.refreshing ensures exists j :: j in t.tasks && t.tasks[j].key == x {
      var j :| j in s.tasks && s.tasks[j].key == x;
      assert j in t.tasks && t.tasks[j].key == x;
    }
  }

  lemma {:induction false} EndKeepsTasks(s: State, i: nat)
    requires TasksOk(s) && i in s.tasks
    ensures TasksOk(s.(tasks := s.tasks - {i}, refreshing := s.refreshing - {s.tasks[i].key}))
  {
    var t := s.(tasks := s.tasks - {i}, refreshing := s.refreshing - {s.tasks[i].key});
    forall x | x in t.refreshing ensures exists j :: j in t.tasks && t.tasks[j].key == x {
      var j :| j in s.tasks && s.tasks[j].key == x;
      assert j in t.tasks && t.tasks[j].key == x;
    }
  }

  lemma {:induction false} SameTasks(s: State, t: State)
    requires TasksOk(s) && t.tasks == s.tasks && t.refreshing == s.refreshing
    ensures TasksOk(t)
  {
  }

  lemma {:induction false} StepKeepsTasks(s: State, step: Step, t: State)
    requires TasksOk(s) && Takes(s, step, t)
    ensures TasksOk(t)
  {
    hide TasksOk;
    match step
    case StartRefresh(c, i) =>
      var k := s.calls[c].key;
      if k in s.refreshing {
        SameTasks(s, t);
      } else {
        StartKeepsTasks(s, i, k);
        SameTasks(s.(refreshing := s.refreshing + {k}, tasks := s.tasks[i := Fetching(k)]), t);
      }
    case TaskResolve(i, v, raw, known) =>
      MoveKeepsTasks(s, i, t.tasks[i]);
      SameTasks(s.(tasks := s.tasks[i := t.tasks[i]]), t);
    case TaskStore(i) =>
      MoveKeepsTasks(s, i, t.tasks[i]);
      SameTasks(s.(tasks := s.tasks[i := t.tasks[i]]), t);
    case TaskEnd(i) =>
      EndKeepsTasks(s, i);
      SameTasks(s.(tasks := s.tasks - {i}, refreshing := s.refreshing - {s.tasks[i].key}), t);
    case _ => SameTasks(s, t);
  }

  // ----- where values come from

  /** The entry holds what a resolve for the key returned, with its TTL and the time it returned. */
  predicate From(s: State, k: Key, e: Entry)
  {
    Resolved(k, e.value, e.ttl, e.fetchedAt) in s.resolved
  }

  ghost predicate ValuesOk(s: State)
  {
    && (forall k | k in s.entries :: From(s, k, s.entries[k]))
    && (forall c | c in s.calls && s.calls[c].Checking? :: From(s, s.calls[c].key, s.calls[c].found))
    && (forall c | c in s.calls && s.calls[c].Storing? :: From(s, s.calls[c].key, s.calls[c].fetched))
    && (forall i | i in s.tasks && s.tasks[i].Keeping? :: From(s, s.tasks[i].key, s.tasks[i].entry))
  }

  ghost predicate ServedOk(s: State)
  {
    && (forall r | r in s.resolved :: r.ttl <= MAX_TTL && r.at <= s.now)
    && (forall v | v in s.served :: From(s, v.key, v.entry) && !Expired(v.entry, v.checkedAt))
  }

  lemma {:induction false} StepKeepsValues(s: State, step: Step, t: State)
    requires ValuesOk(s) && Takes(s, step, t)
    ensures ValuesOk(t)
  {
    hide Stale, ClampTTL, Expired;
  }

  lemma {:induction false} StepKeepsServed(s: State, step: Step, t: State)
    requires ServedOk(s) && ValuesOk(s) && Takes(s, step, t)
    ensures ServedOk(t)
  {
    hide Stale, ClampTTL;
  }

  ghost predicate Inv(s: State)
  {
    TasksOk(s) && ValuesOk(s) && ServedOk(s)
  }

  lemma {:induction false} RunKeepsInv(states: seq<State>, k: nat)
    requires Run(states) && k < |states|
    ensures Inv(states[k])
  {
    hide Takes;
    if k > 0 {
      RunKeepsInv(states, k - 1);
      assert Next(states[k - 1], states[k]);
      var step :| Takes(states[k - 1], step, states[k]);
      hide TasksOk, ValuesOk, ServedOk;
      StepKeepsServed(states[k - 1], step, states[k]);
      StepKeepsTasks(states[k - 1], step, states[k]);
      StepKeepsValues(states[k - 1], step, states[k]);
    }
  }

  /** In every state of every run, the refreshing keys are those with a background task, and each has one. */
  lemma {:induction false} OneTaskPerKey(states: seq<State>, n: nat, k: Key)
    requires Run(states) && n < |states|
    ensures var s := states[n];
            && (k in s.refreshing <==> exists i :: i in s.tasks && s.tasks[i].key == k)
            && (forall i, j | i in s.tasks && j in s.tasks && s.tasks[i].key == k == s.tasks[j].key :: i == j)
  {
    hide Run;
    RunKeepsInv(states, n);
  }

  /**
   Everything ever served from the cache was returned by a resolve for its key, and when
   it was checked less time had passed since that resolve returned than its own TTL, hence
   than the ceiling.
   */
  lemma {:induction false} ServedIsYoung(states: seq<State>, n: nat, v: Served) returns (r: Resolved)
    requires Run(states) && n < |states| && v in states[n].served
    ensures r in states[n].resolved && r.key == v.key && r.value == v.entry.value && r.ttl == v.entry.ttl
    ensures v.checkedAt - r.at < r.ttl <= MAX_TTL && r.at <= states[n].now
  {
    hide Run, TasksOk, ValuesOk;
    RunKeepsInv(states, n);
    assert From(states[n], v.key, v.entry);
    r := Resolved(v.key, v.entry.value, v.entry.ttl, v.entry.fetchedAt);
  }

  // ----- when an entry is served, refreshed or fetched again

  /**
   A call that finds an entry: younger than half its TTL it is served as it is; from then on
   it is served and a refresh is begun; from its TTL on it is fetched again first.
   */
  lemma {:induction false} CheckExactly(s: State, c: nat, t: State)
    requires Takes(s, Check(c), t)
    ensures c in s.calls && s.calls[c].Checking?
    ensures var k, e, age := s.calls[c].key, s.calls[c].found, s.now - s.calls[c].found.fetchedAt;
            && (Served(k, e, s.now) in t.served - s.served ==> age < e.ttl)
            && (age < e.ttl ==> Served(k, e, s.now) in t.served)
            && (c !in t.calls <==> 2 * age < e.ttl && age < e.ttl)
            && (2 * age >= e.ttl && age < e.ttl ==> c in t.calls && t.calls[c] == Refreshing(k, e))
            && (age >= e.ttl ==> c in t.calls && t.calls[c] == Resolving(k) && t.served == s.served)
  {
  }

  /** A look-up of a key whose entry is younger than its TTL is served that entry; it only resolves without one. */
  lemma {:induction false} FreshIsServed(s: State, c: nat, k: Key, t: State, u: State)
    requires Takes(s, Look(c, k), t) && Takes(t, Check(c), u) && k in s.entries
    requires s.now - s.entries[k].fetchedAt < s.entries[k].ttl
    ensures Served(k, s.entries[k], s.now) in u.served && u.entries == s.entries
    ensures c in u.calls ==> u.calls[c] == Refreshing(k, s.entries[k])
  {
  }

  lemma {:induction false} MissResolves(s: State, c: nat, k: Key, t: State)
    requires Takes(s, Look(c, k), t) && k !in s.entries
    ensures c in t.calls && t.calls[c] == Resolving(k)
  {
  }

  /** After a call has begun a refresh, the key has a background task, whether that call started it or found it. */
  lemma {:induction false} RefreshBegins(s: State, c: nat, i: nat, t: State)
    requires Takes(s, StartRefresh(c, i), t) && TasksOk(s)
    ensures var k := s.calls[c].key;
            && k in t.refreshing && (exists j :: j in t.tasks && t.tasks[j].key == k)
            && (k in s.refreshing ==> t.tasks == s.tasks)
            && (k !in s.refreshing ==> i in t.tasks && t.tasks[i] == Fetching(k))
  {
    StepKeepsTasks(s, StartRefresh(c, i), t);
  }

  /** A call about to begin a refresh was served an entry that was half its TTL old, and not all of it. */
  ghost predicate HalfOld(s: State, key: Key, e: Entry)
  {
    exists at :: Served(key, e, at) in s.served && e.ttl <= 2 * (at - e.fetchedAt) && at - e.fetchedAt < e.ttl
  }

  ghost predicate RefreshesOk(s: State)
  {
    forall c | c in s.calls && s.calls[c].Refreshing? :: HalfOld(s, s.calls[c].key, s.calls[c].found)
  }

  lemma {:induction false} HalfOldStays(s: State, t: State, key: Key, e: Entry)
    requires HalfOld(s, key, e) && s.served <= t.served
    ensures HalfOld(t, key, e)
  {
    var at :| Served(key, e, at) in s.served && e.ttl <= 2 * (at - e.fetchedAt) && at - e.fetchedAt < e.ttl;
    assert Served(key, e, at) in t.served;
  }

  lemma {:induction false} StepKeepsRefreshes(s: State, step: Step, t: State)
    requires RefreshesOk(s) && Takes(s, step, t)
    ensures RefreshesOk(t)
  {
    hide HalfOld, ClampTTL;
    assert s.served <= t.served;
    forall c | c in t.calls && t.calls[c].Refreshing? ensures HalfOld(t, t.calls[c].key, t.calls[c].found) {
      if c in s.calls && s.calls[c] == t.calls[c] {
        HalfOldStays(s, t, t.calls[c].key, t.calls[c].found);
      } else {
        NewlyHalfOld(s, step, t, c);
      }
    }
  }

  lemma {:induction false} NewlyHalfOld(s: State, step: Step, t: State, c: nat)
    requires Takes(s, step, t) && c in t.calls && t.calls[c].Refreshing? && !(c in s.calls && s.calls[c] == t.calls[c])
    ensures HalfOld(t, t.calls[c].key, t.calls[c].found)
  {
    hide ClampTTL;
    assert step == Check(c);
    assert Served(t.calls[c].key, t.calls[c].found, s.now) in t.served;
  }

  /** In every run, a background refresh is only begun for an entry that was served half its TTL old. */
  lemma {:induction false} RefreshOnlyHalfOld(states: seq<State>, n: nat, c: nat)
    requires Run(states) && n < |states| && c in states[n].calls && states[n].calls[c].Refreshing?
    ensures HalfOld(states[n], states[n].calls[c].key, states[n].calls[c].found)
  {
    hide HalfOld;
    RunKeepsRefreshes(states, n);
  }

  lemma {:induction false} RunKeepsRefreshes(states: seq<State>, n: nat)
    requires Run(states) && n < |states|
    ensures RefreshesOk(states[n])
  {
    hide Takes, HalfOld;
    if n > 0 {
      RunKeepsRefreshes(states, n - 1);
      assert Next(states[n - 1], states[n]);
      var step :| Takes(states[n - 1], step, states[n]);
      StepKeepsRefreshes(states[n - 1], step, states[n]);
    }
  }

  /** The TTL kept: the one reported if it is from half a minute to half an hour, else the nearer of these. */
  predicate KeptTTL(ttl: int, raw: int, known: bool)
  {
    && (!known ==> ttl == 300_000_000_000)
    && (known ==> 30_000_000_000 <= ttl <= 1_800_000_000_000)
    && (known && 30_000_000_000 <= raw <= 1_800_000_000_000 ==> ttl == raw)
    && (known && raw < 30_000_000_000 ==> ttl == 30_000_000_000)
    && (known && raw > 1_800_000_000_000 ==> ttl == 1_800_000_000_000)
  }

  /** Whoever resolved, a call or a background task, stores what it got under that TTL, as of that moment. */
  lemma {:induction false} StoredAsResolved(s: State, step: Step, t: State, u: State)
    requires step.Resolve? || step.TaskResolve?
    requires Takes(s, step, t)
    requires Takes(t, if step.Resolve? then Store(step.call) else TaskStore(step.task), u)
    ensures var k := if step.Resolve? then s.calls[step.call].key else s.tasks[step.task].key;
            && k in u.entries && u.entries[k].value == step.value && u.entries[k].fetchedAt == s.now
            && KeptTTL(u.entries[k].ttl, step.raw, step.known)
            && forall x | x != k && x in s.entries :: x in u.entries && u.entries[x] == s.entries[x]
  {
  }
}
