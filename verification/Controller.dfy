/**
 The Namespace-to-Project controller over a client-go work queue: informer events,
 handlers, delayed retries and workers interleave freely, API calls may fail with
 or without having taken effect, and namespaces change at any time. Projects have
 no other writer.
 */
module Controller {
  import opened Wrappers

  type Name = string

  /** What a worker has done so far with the name it took. */
  datatype Work =
    | Started
    | Read(seen: Option<string>)
    | Creating(phase: string)
    | Status(current: string, phase: string)
    | Failed
    | Leaving

  /** A change of a namespace that the informer has not seen yet. */
  datatype Event = Event(name: Name, phase: Option<string>)

  /**
   Namespaces and Projects by phase, the informer's cache, the events on their way
   to it, the notifications not handled yet by name, and the work queue: its
   order, the dirty set, the delayed retries, and the names in process.
   */
  datatype State = State(
    namespaces: map<Name, string>, projects: map<Name, string>, cached: map<Name, string>,
    events: seq<Event>, notify: multiset<Name>, queue: seq<Name>, dirty: set<Name>, delayed: set<Name>,
    work: map<Name, Work>)

  function Get(m: map<Name, string>, x: Name): (r: Option<string>)
  {
    if x in m then Some(m[x]) else None
  }

  function Put(m: map<Name, string>, x: Name, v: Option<string>): (r: map<Name, string>)
    ensures Get(r, x) == v && forall y | y != x :: Get(r, y) == Get(m, y)
  {
    match v
    case Some(phase) => m[x := phase]
    case None => m - {x}
  }

  // ----- the work queue

  /** `Add`: a dirty name is not added twice, and one in process waits for `Done`. */
  function Add(s: State, x: Name): (t: State)
  {
    if x in s.dirty then s
    else s.(dirty := s.dirty + {x}, queue := if x in s.work then s.queue else s.queue + [x])
  }

  /** `Get`: the oldest queued name goes into process and is clean again. */
  function Take(s: State): (t: State)
    requires s.queue != []
  {
    var x := s.queue[0];
    s.(queue := s.queue[1..], dirty := s.dirty - {x}, work := s.work[x := Started])
  }

  /** `Done`: a name that became dirty in the meantime is queued again. */
  function Done(s: State, x: Name): (t: State)
  {
    s.(work := s.work - {x}, queue := if x in s.dirty then s.queue + [x] else s.queue)
  }

  // ----- steps

  datatype Step =
    | Change(name: Name, phase: Option<string>)
    | Deliver
    | Handle(name: Name)
    | Resync(name: Name)
    | Retry(name: Name)
    | Begin
    | Proceed(name: Name, project: Option<string>, next: Work, retry: bool)
    | Finish(name: Name)

  /**
   One move of the worker that has a name: it reads the lister, then calls the API,
   where any call may fail, with or without effect on the Project. `retry` is the
   rate-limited re-queueing after a failure.
   */
  predicate Moves(cached: Option<string>, project: Option<string>, w: Work, project': Option<string>, w': Work,
                  retry: bool)
  {
    retry == w.Failed? &&
    match w
    case Started => project' == project && (w' == Read(cached) || w' == Failed)
    case Read(None) =>
      // delete the Project; that it is not found is no error
      || (project' == None && (w' == Leaving || w' == Failed))
      || (project' == project && w' == Failed)
    case Read(Some(phase)) =>
      && project' == project
      && (w' == Failed || w' == if project.Some? then Status(project.value, phase) else Creating(phase))
    case Creating(phase) =>
      if project.Some? then project' == project && w' == Leaving
      else
        || (project' == Some("") && (w' == Status("", phase) || w' == Failed))
        || (project' == project && w' == Failed)
    case Status(current, phase) =>
      if current == phase then project' == project && w' == Leaving
      else
        || (project.Some? && project' == Some(phase) && (w' == Leaving || w' == Failed))
        || (project' == project && w' == Failed)
    case Failed => project' == project && w' == Leaving
    case Leaving => false
  }

  function Moved(s: State, x: Name, project: Option<string>, w: Work, retry: bool): (t: State)
  {
    s.(projects := Put(s.projects, x, project), work := s.work[x := w],
       delayed := if retry then s.delayed + {x} else s.delayed)
  }

  predicate Takes(s: State, step: Step, t: State)
  {
    match step
    case Change(x, v) => t == s.(namespaces := Put(s.namespaces, x, v), events := s.events + [Event(x, v)])
    case Deliver =>
      s.events != [] &&
      var e := s.events[0];
      t == s.(events := s.events[1..], cached := Put(s.cached, e.name, e.phase), notify := s.notify + multiset{e.name})
    case Handle(x) => x in s.notify && t == Add(s.(notify := s.notify - multiset{x}), x)
    case Resync(x) => x in s.cached && t == s.(notify := s.notify + multiset{x})
    case Retry(x) => x in s.delayed && t == Add(s.(delayed := s.delayed - {x}), x)
    case Begin => s.queue != [] && t == Take(s)
    case Proceed(x, p, w, retry) =>
      && x in s.work && Moves(Get(s.cached, x), Get(s.projects, x), s.work[x], p, w, retry)
      && t == Moved(s, x, p, w, retry)
    case Finish(x) => x in s.work && s.work[x] == Leaving && t == Done(s, x)
  }

  /** The informers have synced, every cached name is still to be handled, and no Project is an orphan. */
  predicate Initial(s: State)
  {
    && s.cached == s.namespaces && s.events == [] && s.notify == multiset(s.cached.Keys)
    && s.projects.Keys <= s.cached.Keys
    && s.queue == [] && s.dirty == {} && s.delayed == {} && s.work == map[]
  }

  ghost predicate Next(s: State, t: State)
  {
    exists step :: Takes(s, step, t)
  }

  ghost predicate Run(states: seq<State>)
  {
    |states| > 0 && Initial(states[0]) && forall k | 0 < k < |states| :: Next(states[k - 1], states[k])
  }

  // ----- the queue is consistent

  /** The queue holds, once each, the dirty names that are not in process. */
  ghost predicate QueueOk(s: State)
  {
    && (forall i, j | 0 <= i < j < |s.queue| :: s.queue[i] != s.queue[j])
    && (forall x :: x in s.queue <==> x in s.dirty && x !in s.work)
  }

  lemma {:induction false} AddKeepsQueue(s: State, x: Name)
    requires QueueOk(s)
    ensures QueueOk(Add(s, x))
  {
  }

  lemma {:induction false} TakeKeepsQueue(s: State)
    requires QueueOk(s) && s.queue != []
    ensures QueueOk(Take(s)) && s.queue[0] in s.dirty && s.queue[0] !in s.work
  {
    var x, t := s.queue[0], Take(s);
    assert s.queue == [x] + s.queue[1..];
    forall y ensures y in t.queue <==> y in t.dirty && y !in t.work {
      assert y in s.queue <==> y in s.dirty && y !in s.work;
    }
  }

  lemma {:induction false} DoneKeepsQueue(s: State, x: Name)
    requires QueueOk(s) && x in s.work
    ensures QueueOk(Done(s, x))
  {
    var t := Done(s, x);
    forall y ensures y in t.queue <==> y in t.dirty && y !in t.work {
      assert y in s.queue <==> y in s.dirty && y !in s.work;
    }
  }

  lemma {:induction false} StepKeepsQueue(s: State, step: Step, t: State)
    requires QueueOk(s) && Takes(s, step, t)
    ensures QueueOk(t)
  {
    hide QueueOk, Put, Get, Moves, Add, Take, Done;
    match step
    case Change(_, _) => SameQueue(s, t);
    case Deliver => SameQueue(s, t);
    case Handle(x) =>
      SameQueue(s, s.(notify := s.notify - multiset{x}));
      AddKeepsQueue(s.(notify := s.notify - multiset{x}), x);
    case Resync(_) => SameQueue(s, t);
    case Retry(x) =>
      SameQueue(s, s.(delayed := s.delayed - {x}));
      AddKeepsQueue(s.(delayed := s.delayed - {x}), x);
    case Begin => TakeKeepsQueue(s);
    case Proceed(x, p, w, retry) => MovedKeepsQueue(s, x, p, w, retry);
    case Finish(x) => DoneKeepsQueue(s, x);
  }

  lemma {:induction false} MovedKeepsQueue(s: State, x: Name, p: Option<string>, w: Work, retry: bool)
    requires QueueOk(s) && x in s.work
    ensures QueueOk(Moved(s, x, p, w, retry))
  {
    hide QueueOk, Put;
    SameQueue(s, Moved(s, x, p, w, retry));
  }

  lemma {:induction false} SameQueue(s: State, t: State)
    requires QueueOk(s) && t.queue == s.queue && t.dirty == s.dirty && t.work.Keys == s.work.Keys
    ensures QueueOk(t)
  {
  }

  /** First in, first out: a step takes the first name out of the queue, puts one at its end, or leaves it alone. */
  lemma {:induction false} FirstInFirstOut(s: State, step: Step, t: State)
    requires Takes(s, step, t)
    ensures if step.Begin? then
              s.queue != [] && t.queue == s.queue[1..] && s.queue[0] in t.work && t.work[s.queue[0]] == Started
            else t.queue == s.queue || exists x :: t.queue == s.queue + [x] && x in t.dirty && x !in t.work
  {
    hide Put, Get, Moves;
    match step
    case Handle(x) => AddLast(s.(notify := s.notify - multiset{x}), x);
    case Retry(x) => AddLast(s.(delayed := s.delayed - {x}), x);
    case Finish(x) =>
      if x in s.dirty {
        assert t.queue == s.queue + [x] && x in t.dirty && x !in t.work;
      }
    case _ =>
  }

  lemma {:induction false} AddLast(s: State, x: Name)
    ensures var t := Add(s, x);
            t.queue == s.queue || (t.queue == s.queue + [x] && x in t.dirty && x !in t.work)
  {
  }

  // ----- what holds of one name

  /** Everything about one name. */
  datatype View = View(cached: Option<string>, project: Option<string>, dirty: bool, notify: nat, delayed: bool,
                       work: Option<Work>)

  function ViewOf(s: State, x: Name): (v: View)
  {
    View(Get(s.cached, x), Get(s.projects, x), x in s.dirty, s.notify[x], x in s.delayed,
         if x in s.work then Some(s.work[x]) else None)
  }

  /**
   Unless the name is to be looked at again, what its worker knows is what the cache
   says; and unless someone will still act on it, the Project mirrors the cache.
   */
  predicate NameOk(v: View)
  {
    var settled := !v.dirty && v.notify == 0;
    match v.work
    case None => settled && !v.delayed ==> v.project == v.cached
    case Some(Started) => true
    case Some(Read(phase)) => settled ==> v.cached == phase
    case Some(Creating(phase)) => v.project == None && (settled ==> v.cached == Some(phase))
    case Some(Status(current, phase)) => v.project == Some(current) && (settled ==> v.cached == Some(phase))
    case Some(Failed) => true
    case Some(Leaving) => settled && !v.delayed ==> v.project == v.cached
  }

  /** The name a step is about. */
  function Subject(s: State, step: Step): (x: Name)
    requires step.Deliver? ==> s.events != []
    requires step.Begin? ==> s.queue != []
  {
    match step
    case Change(x, _) => x
    case Deliver => s.events[0].name
    case Handle(x) => x
    case Resync(x) => x
    case Retry(x) => x
    case Begin => s.queue[0]
    case Proceed(x, _, _, _) => x
    case Finish(x) => x
  }

  lemma {:induction false} MovedView(s: State, x: Name, p: Option<string>, w: Work, retry: bool, y: Name)
    ensures ViewOf(Moved(s, x, p, w, retry), y)
            == if y != x then ViewOf(s, y)
               else ViewOf(s, x).(project := p, work := Some(w), delayed := retry || ViewOf(s, x).delayed)
  {
  }

  lemma {:induction false} AddView(s: State, x: Name, y: Name)
    ensures ViewOf(Add(s, x), y) == if y != x then ViewOf(s, y) else ViewOf(s, x).(dirty := true)
  {
    hide Get;
  }

  lemma {:induction false} SameView(s: State, t: State, y: Name)
    requires t.cached == s.cached && t.projects == s.projects && t.dirty == s.dirty && t.notify == s.notify
    requires t.delayed == s.delayed && t.work == s.work
    ensures ViewOf(t, y) == ViewOf(s, y)
  {
    hide Get;
  }

  lemma {:induction false} HandleView(s: State, x: Name, y: Name)
    requires x in s.notify
    ensures ViewOf(s.(notify := s.notify - multiset{x}), y)
            == if y != x then ViewOf(s, y) else ViewOf(s, x).(notify := s.notify[x] - 1)
    ensures ViewOf(s, y).notify == s.notify[y]
  {
    hide Get;
  }

  lemma {:induction false} RetryView(s: State, x: Name, y: Name)
    ensures ViewOf(s.(delayed := s.delayed - {x}), y)
            == if y != x then ViewOf(s, y) else ViewOf(s, x).(delayed := false)
  {
    hide Get;
  }

  lemma {:induction false} ResyncView(s: State, x: Name, y: Name)
    ensures ViewOf(s.(notify := s.notify + multiset{x}), y)
            == if y != x then ViewOf(s, y) else ViewOf(s, x).(notify := ViewOf(s, x).notify + 1)
  {
    hide Get;
  }

  lemma {:induction false} TakeView(s: State, y: Name)
    requires s.queue != []
    ensures ViewOf(Take(s), y) == if y != s.queue[0] then ViewOf(s, y)
                                  else ViewOf(s, y).(dirty := false, work := Some(Started))
  {
    hide Get;
  }

  lemma {:induction false} DoneView(s: State, x: Name, y: Name)
    ensures ViewOf(Done(s, x), y) == if y != x then ViewOf(s, y) else ViewOf(s, x).(work := None)
  {
    hide Get;
  }

  /** What a step makes of what is known about a name. */
  function Seen(s: State, step: Step, y: Name): (v: View)
    requires step.Deliver? ==> s.events != []
    requires step.Begin? ==> s.queue != []
    requires step.Handle? ==> step.name in s.notify
  {
    var v := ViewOf(s, y);
    if y != Subject(s, step) then v
    else
      match step
      case Change(_, _) => v
      case Deliver => v.(cached := s.events[0].phase, notify := v.notify + 1)
      case Handle(_) => v.(notify := v.notify - 1, dirty := true)
      case Resync(_) => v.(notify := v.notify + 1)
      case Retry(_) => v.(delayed := false, dirty := true)
      case Begin => v.(dirty := false, work := Some(Started))
      case Proceed(_, p, w, retry) => v.(project := p, work := Some(w), delayed := retry || v.delayed)
      case Finish(_) => v.(work := None)
  }

  lemma {:induction false} StepView(s: State, step: Step, t: State, y: Name)
    requires Takes(s, step, t)
    ensures ViewOf(t, y) == Seen(s, step, y)
  {
    hide Moves, Add, Moved, Take, Done, Put, Get, ViewOf;
    match step
    case Change(_, _) => SameView(s, t, y);
    case Deliver => DeliverView(s, y);
    case Handle(x) =>
      HandleView(s, x, y);
      AddView(s.(notify := s.notify - multiset{x}), x, y);
    case Resync(x) => ResyncView(s, x, y);
    case Retry(x) =>
      RetryView(s, x, y);
      AddView(s.(delayed := s.delayed - {x}), x, y);
    case Begin => TakeView(s, y);
    case Proceed(x, p, w, retry) => MovedView(s, x, p, w, retry, y);
    case Finish(x) => DoneView(s, x, y);
  }

  lemma {:induction false} DeliverView(s: State, y: Name)
    requires s.events != []
    ensures var e := s.events[0];
            ViewOf(s.(events := s.events[1..], cached := Put(s.cached, e.name, e.phase),
              notify := s.notify + multiset{e.name}), y)
            == Seen(s, Deliver, y)
  {
  }

  lemma {:induction false} MoveOk(v: View, p: Option<string>, w: Work, retry: bool)
    requires NameOk(v) && v.work.Some? && Moves(v.cached, v.project, v.work.value, p, w, retry)
    ensures NameOk(v.(project := p, work := Some(w), delayed := retry || v.delayed))
  {
  }

  /** A step keeps what holds of each name. */
  lemma {:induction false} StepKeepsName(s: State, step: Step, t: State, y: Name)
    requires Takes(s, step, t) && NameOk(ViewOf(s, y))
    ensures NameOk(ViewOf(t, y))
  {
    hide Moves, Put, Get, Add, Take, Done, Moved;
    StepView(s, step, t, y);
    if step.Proceed? && y == step.name {
      MoveOk(ViewOf(s, y), step.project, step.next, step.retry);
    }
  }

  ghost predicate Inv(s: State)
  {
    QueueOk(s) && (forall x :: NameOk(ViewOf(s, x))) && s.namespaces == Caught(s.cached, s.events)
  }

  /** The cache once all events are delivered. */
  function Caught(cached: map<Name, string>, events: seq<Event>): (r: map<Name, string>)
    decreases |events|
  {
    if events == [] then cached else Caught(Put(cached, events[0].name, events[0].phase), events[1..])
  }

  lemma {:induction false} CaughtSnoc(cached: map<Name, string>, events: seq<Event>, e: Event)
    ensures Caught(cached, events + [e]) == Put(Caught(cached, events), e.name, e.phase)
    decreases |events|
  {
    hide Put;
    if events == [] {
      assert [] + [e] == [e] && [e][1..] == [];
    } else {
      assert (events + [e])[1..] == events[1..] + [e];
      CaughtSnoc(Put(cached, events[0].name, events[0].phase), events[1..], e);
    }
  }

  lemma {:induction false} StepKeepsInv(s: State, step: Step, t: State)
    requires Inv(s) && Takes(s, step, t)
    ensures Inv(t)
  {
    hide QueueOk, NameOk, ViewOf, Takes, Caught;
    StepKeepsQueue(s, step, t);
    forall y ensures NameOk(ViewOf(t, y)) {
      StepKeepsName(s, step, t, y);
    }
    StepCatchesUp(s, step, t);
  }

  lemma {:induction false} StepCatchesUp(s: State, step: Step, t: State)
    requires Takes(s, step, t) && s.namespaces == Caught(s.cached, s.events)
    ensures t.namespaces == Caught(t.cached, t.events)
  {
    hide Put, Get, Moves;
    if step.Change? {
      CaughtSnoc(s.cached, s.events, Event(step.name, step.phase));
    }
  }

  lemma {:induction false} RunKeepsInv(states: seq<State>, k: nat)
    requires Run(states) && k < |states|
    ensures Inv(states[k])
  {
    hide Takes;
    if k == 0 {
      InitialOk(states[0]);
    } else {
      hide Inv;
      RunKeepsInv(states, k - 1);
      assert Next(states[k - 1], states[k]);
      var step :| Takes(states[k - 1], step, states[k]);
      StepKeepsInv(states[k - 1], step, states[k]);
    }
  }

  lemma {:induction false} InitialOk(s: State)
    requires Initial(s)
    ensures Inv(s)
  {
  }

  /** Nobody is going to act on the name: not the queue, a retry, a worker or a handler. */
  predicate Quiet(s: State, x: Name)
  {
    x !in s.queue && x !in s.delayed && x !in s.work && x !in s.notify
  }

  /**
   In every state of every run, a quiet name has its Project exactly when the cached
   Namespace exists, and with the same phase; once the informer has caught up, that
   is the Namespace itself.
   */
  lemma {:induction false} QuietIsMirrored(states: seq<State>, k: nat, x: Name)
    requires Run(states) && k < |states| && Quiet(states[k], x)
    ensures Get(states[k].projects, x) == Get(states[k].cached, x)
    ensures (forall e | e in states[k].events :: e.name != x) ==>
              Get(states[k].projects, x) == Get(states[k].namespaces, x)
  {
    RunKeepsInv(states, k);
    var s := states[k];
    assert x in s.queue <==> x in s.dirty && x !in s.work;
    assert NameOk(ViewOf(s, x));
    CaughtOthers(s.cached, s.events, x);
  }

  lemma {:induction false} CaughtOthers(cached: map<Name, string>, events: seq<Event>, x: Name)
    ensures (forall e | e in events :: e.name != x) ==> Get(Caught(cached, events), x) == Get(cached, x)
    decreases |events|
  {
    if events != [] {
      assert events[0] in events;
      CaughtOthers(Put(cached, events[0].name, events[0].phase), events[1..], x);
    }
  }

  // ----- a worker whose calls succeed

  /** What a worker that nothing interfered with knows is so, and when it is about to leave its work is done. */
  predicate Informed(cached: Option<string>, project: Option<string>, w: Work)
  {
    match w
    case Started => true
    case Read(seen) => seen == cached
    case Creating(phase) => cached == Some(phase) && project == None
    case Status(current, phase) => cached == Some(phase) && project == Some(current)
    case Failed => false
    case Leaving => project == cached
  }

  /** How far a worker is from its end. */
  function Rank(w: Work): (n: nat)
  {
    match w
    case Started => 5
    case Read(_) => 4
    case Creating(_) => 3
    case Status(_, _) => 2
    case Failed => 9
    case Leaving => 0
  }

  /** The move that succeeds, in any state of the worker. */
  function Success(cached: Option<string>, project: Option<string>, w: Work): (r: (Option<string>, Work))
  {
    match w
    case Started => (project, Read(cached))
    case Read(None) => (None, Leaving)
    case Read(Some(phase)) => (project, if project.Some? then Status(project.value, phase) else Creating(phase))
    case Creating(phase) => if project.Some? then (project, Leaving) else (Some(""), Status("", phase))
    case Status(current, phase) => (if current == phase then project else Some(phase), Leaving)
    case Failed => (project, Leaving)
    case Leaving => (project, Leaving)
  }

  /** A worker goes on, unless it is done, and never goes back. */
  lemma {:induction false} SuccessMoves(cached: Option<string>, project: Option<string>, w: Work)
    requires w != Leaving && (w.Status? ==> project.Some?)
    ensures var r := Success(cached, project, w);
            Moves(cached, project, w, r.0, r.1, w.Failed?) && r.1 != Failed && Rank(r.1) < Rank(w)
  {
  }

  lemma {:induction false} MoveForward(cached: Option<string>, project: Option<string>, w: Work,
                                       project': Option<string>, w': Work, retry: bool)
    requires Moves(cached, project, w, project', w', retry) && w' != Failed
    ensures Rank(w') < Rank(w) && (Informed(cached, project, w) ==> Informed(cached, project', w'))
    ensures retry <==> w.Failed?
  {
  }

  /** The Project and the worker after each of a worker's moves. */
  datatype Moment = Moment(project: Option<string>, work: Work)

  /** Moves of one worker, none of which fails, while nothing else touches the cache or the Project. */
  ghost predicate Undisturbed(cached: Option<string>, run: seq<Moment>)
  {
    && |run| > 0 && run[0].work == Started
    && forall k | 0 < k < |run| ::
         && Moves(cached, run[k - 1].project, run[k - 1].work, run[k].project, run[k].work, run[k - 1].work.Failed?)
         && run[k].work != Failed
  }

  /**
   A worker whose calls all succeed is done after at most four moves, and the Project is then
   what the cache says.
   */
  lemma {:induction false} WorkerEnds(cached: Option<string>, run: seq<Moment>)
    requires Undisturbed(cached, run)
    ensures var last := run[|run| - 1];
            && |run| <= 5 && Informed(cached, last.project, last.work) && Rank(last.work) + |run| <= 6
            && (last.work == Leaving ==> last.project == cached)
            && (last.work != Leaving ==>
                  exists p, w :: Moves(cached, last.project, last.work, p, w, false) && w != Failed)
    decreases |run|
  {
    hide Moves;
    var last := run[|run| - 1];
    if |run| > 1 {
      var before := run[..|run| - 1];
      assert forall k | 0 <= k < |before| :: before[k] == run[k];
      WorkerEnds(cached, before);
      MoveForward(cached, before[|before| - 1].project, before[|before| - 1].work, last.project, last.work,
                  before[|before| - 1].work.Failed?);
    }
    if last.work != Leaving {
      SuccessMoves(cached, last.project, last.work);
    }
  }

  // ----- the whole controller, once nothing changes and no call fails

  /** No namespace changes, no resync comes, and no call fails. */
  predicate Calm(step: Step)
  {
    !step.Change? && !step.Resync? && (step.Proceed? ==> step.next != Failed)
  }

  /** What is left to do for the workers. */
  ghost function Effort(work: map<Name, Work>): (n: nat)
  {
    if work == map[] then 0
    else
      var x :| x in work;
      1 + Rank(work[x]) + Effort(work - {x})
  }

  lemma {:induction false} EffortWithout(work: map<Name, Work>, x: Name)
    requires x in work
    ensures Effort(work) == 1 + Rank(work[x]) + Effort(work - {x})
    decreases |work|
  {
    var y :| y in work && Effort(work) == 1 + Rank(work[y]) + Effort(work - {y});
    if y != x {
      EffortWithout(work - {y}, x);
      EffortWithout(work - {x}, y);
      assert work - {y} - {x} == work - {x} - {y};
    }
  }

  lemma {:induction false} EffortPut(work: map<Name, Work>, x: Name, w: Work)
    ensures Effort(work[x := w]) == 1 + Rank(w) + Effort(work - {x})
  {
    EffortWithout(work[x := w], x);
    assert work[x := w] - {x} == work - {x};
  }

  /** What is left to do in all. */
  ghost function Todo(s: State): (n: nat)
  {
    9 * |s.events| + 8 * |s.notify| + 8 * |s.delayed| + 7 * |s.dirty| + Effort(s.work)
  }

  lemma {:induction false} AddTodo(s: State, x: Name)
    ensures Todo(Add(s, x)) <= Todo(s) + 7
  {
    hide Effort;
  }

  /** Every step of a calm controller leaves less to do. */
  lemma {:induction false} CalmStep(s: State, step: Step, t: State)
    requires Takes(s, step, t) && Calm(step) && QueueOk(s)
    ensures Todo(t) < Todo(s)
  {
    hide Effort, QueueOk, Put, Get, Moves, Add;
    match step
    case Deliver => assert |s.notify + multiset{s.events[0].name}| == |s.notify| + 1;
    case Handle(x) =>
      assert |s.notify - multiset{x}| == |s.notify| - 1;
      AddTodo(s.(notify := s.notify - multiset{x}), x);
    case Retry(x) =>
      assert |s.delayed - {x}| == |s.delayed| - 1;
      AddTodo(s.(delayed := s.delayed - {x}), x);
    case Begin => BeginTodo(s, t);
    case Proceed(x, p, w, retry) => ProceedTodo(s, x, p, w, retry, t);
    case Finish(x) => EffortWithout(s.work, x);
  }

  lemma {:induction false} BeginTodo(s: State, t: State)
    requires QueueOk(s) && s.queue != [] && t == Take(s)
    ensures Todo(t) < Todo(s)
  {
    TakeKeepsQueue(s);
    hide Effort, QueueOk;
    var x := s.queue[0];
    assert |s.dirty - {x}| == |s.dirty| - 1;
    EffortPut(s.work, x, Started);
    assert s.work - {x} == s.work;
  }

  lemma {:induction false} ProceedTodo(s: State, x: Name, p: Option<string>, w: Work, retry: bool, t: State)
    requires Takes(s, Proceed(x, p, w, retry), t) && w != Failed
    ensures Todo(t) < Todo(s)
  {
    hide Effort, Put, Get, Moves;
    MoveForward(Get(s.cached, x), Get(s.projects, x), s.work[x], p, w, retry);
    EffortWithout(s.work, x);
    EffortPut(s.work, x, w);
    if retry {
      assert w == Leaving by { FailedLeaves(Get(s.cached, x), Get(s.projects, x), p, w); }
      assert |s.delayed + {x}| <= |s.delayed| + 1;
    }
  }

  lemma {:induction false} FailedLeaves(cached: Option<string>, project: Option<string>, p: Option<string>, w: Work)
    requires Moves(cached, project, Failed, p, w, true)
    ensures w == Leaving && p == project
  {
  }

  /** Steps taken one after the other, all of them calm. */
  ghost predicate CalmRun(states: seq<State>)
  {
    |states| > 0 && forall k | 0 < k < |states| :: CalmNext(states[k - 1], states[k])
  }

  ghost predicate CalmNext(s: State, t: State)
  {
    exists step :: Takes(s, step, t) && Calm(step)
  }

  /** Nobody is going to act on any name, and the informer has caught up. */
  predicate AllDone(s: State)
  {
    s.events == [] && s.notify == multiset{} && s.delayed == {} && s.queue == [] && s.work == map[]
  }

  /** As long as something is left to do, a calm step can be taken. */
  lemma {:induction false} CalmGoesOn(s: State)
    requires Inv(s) && !AllDone(s)
    ensures exists t :: CalmNext(s, t)
  {
    hide QueueOk, NameOk, Caught;
    var step, t := CalmChoice(s);
    assert CalmNext(s, t);
  }

  lemma {:induction false} CalmChoice(s: State) returns (step: Step, t: State)
    requires Inv(s) && !AllDone(s)
    ensures Takes(s, step, t) && Calm(step)
  {
    hide QueueOk, Caught, Put, Add, Take, Done, Moves, Get;
    if s.events != [] {
      var e := s.events[0];
      step := Deliver;
      t := s.(events := s.events[1..], cached := Put(s.cached, e.name, e.phase), notify := s.notify + multiset{e.name});
    } else if s.notify != multiset{} {
      var x :| x in s.notify;
      step, t := Handle(x), Add(s.(notify := s.notify - multiset{x}), x);
    } else if s.delayed != {} {
      var x :| x in s.delayed;
      step, t := Retry(x), Add(s.(delayed := s.delayed - {x}), x);
    } else if s.queue != [] {
      step, t := Begin, Take(s);
    } else {
      assert s.work != map[];
      var x :| x in s.work;
      if s.work[x] == Leaving {
        step, t := Finish(x), Done(s, x);
      } else {
        assert NameOk(ViewOf(s, x));
        var cached, project, w := Get(s.cached, x), Get(s.projects, x), s.work[x];
        SuccessMoves(cached, project, w);
        var r := Success(cached, project, w);
        step, t := Proceed(x, r.0, r.1, w.Failed?), Moved(s, x, r.0, r.1, w.Failed?);
      }
    }
  }

  lemma {:induction false} CalmShort(states: seq<State>)
    requires CalmRun(states) && Inv(states[0])
    ensures Inv(states[|states| - 1]) && Todo(states[|states| - 1]) + |states| - 1 <= Todo(states[0])
    decreases |states|
  {
    hide Takes, Inv, Todo;
    if |states| > 1 {
      var before, s, t := states[..|states| - 1], states[|states| - 2], states[|states| - 1];
      assert forall k | 0 <= k < |before| :: before[k] == states[k];
      CalmShort(before);
      assert CalmNext(s, t);
      var step :| Takes(s, step, t) && Calm(step);
      InvQueue(s);
      CalmStep(s, step, t);
      StepKeepsInv(s, step, t);
    }
  }

  lemma {:induction false} InvQueue(s: State)
    requires Inv(s)
    ensures QueueOk(s)
  {
    hide QueueOk, NameOk, Caught;
  }

  /**
   From any reachable state, once nothing changes any more and no call fails, the controller
   takes at most `Todo` steps, whichever they are; and when it can take none, every Namespace
   has its Project with the same phase, and there is no other Project.
   */
  lemma {:induction false} Converges(states: seq<State>, calm: seq<State>)
    requires Run(states) && CalmRun(calm) && calm[0] == states[|states| - 1]
    ensures |calm| - 1 <= Todo(calm[0])
    ensures var last := calm[|calm| - 1];
            (forall t :: !CalmNext(last, t)) ==> AllDone(last) && last.projects == last.namespaces
  {
    hide Inv, CalmRun, CalmNext, Todo, Run, AllDone;
    RunStart(states);
    RunKeepsInv(states, |states| - 1);
    CalmStart(calm);
    CalmShort(calm);
    var last := calm[|calm| - 1];
    if forall t :: !CalmNext(last, t) {
      if !AllDone(last) {
        CalmGoesOn(last);
      }
      DoneMirrors(last);
    }
  }

  lemma {:induction false} RunStart(states: seq<State>)
    requires Run(states)
    ensures |states| > 0
  {
  }

  lemma {:induction false} CalmStart(calm: seq<State>)
    requires CalmRun(calm)
    ensures |calm| > 0
  {
  }

  lemma {:induction false} DoneMirrors(s: State)
    requires Inv(s) && AllDone(s)
    ensures s.projects == s.namespaces
  {
    assert s.namespaces == s.cached;
    forall x ensures Get(s.projects, x) == Get(s.namespaces, x) {
      assert x in s.queue <==> x in s.dirty && x !in s.work;
      assert NameOk(ViewOf(s, x));
    }
    assert forall x :: x in s.projects <==> Get(s.projects, x).Some?;
    assert forall x :: x in s.namespaces <==> Get(s.namespaces, x).Some?;
    assert forall x | x in s.projects :: Get(s.projects, x) == Some(s.projects[x]);
    assert forall x | x in s.namespaces :: Get(s.namespaces, x) == Some(s.namespaces[x]);
  }
}
