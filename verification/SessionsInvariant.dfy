/** The session manager's invariant holds in every reachable state, and what follows from it. */
module SessionsInvariant {
  import opened Values
  import opened Sessions

  // ----- one session at a time -----

  lemma SessionOps(x: Session)
    requires TimerInv(x)
    ensures TimerInv(Forgotten(x)) && TimerInv(Begun(x)) && TimerInv(Ended(x)) && TimerInv(Disposed(x)) && TimerInv(NewSession())
    ensures !x.disposed && !x.registered ==> TimerInv(Tracked(x))
    ensures x.armed ==> TimerInv(Disposed(x.(armed := false)))
    ensures Begun(x).tracked == x.tracked && Ended(x).tracked == x.tracked
    ensures !Forgotten(x).tracked && !Disposed(x).tracked
  {
  }

  // ----- timers -----

  lemma OneTimer(store: map<Key, Session>, k: Key, x: Session)
    requires TimersInv(store) && TimerInv(x)
    ensures TimersInv(store[k := x])
  {
    hide TimerInv;
  }

  lemma AllTimers(store: map<Key, Session>, ks: set<Key>)
    requires TimersInv(store)
    ensures TimersInv(map k | k in store :: if k in ks then Disposed(store[k]) else store[k])
  {
    hide TimerInv; hide Disposed;
    forall k | k in store ensures TimerInv(if k in ks then Disposed(store[k]) else store[k]) { SessionOps(store[k]); }
  }

  lemma RegisteredIsLive(tasks: map<TaskId, Task>, store: map<Key, Session>, t: TaskId)
    requires FreshInv(tasks, store) && t in tasks && tasks[t].Initializing? && tasks[t].handling && tasks[t].key in store
    requires !store[tasks[t].key].registered
    ensures !store[tasks[t].key].disposed
  {
  }

  /** The session a step touches and what it becomes; `CloseAll` touches many. */
  function Touched(max: nat, s: State, e: Event): Option<(Key, Session)>
    requires Enabled(s, e)
  {
    match e
    case Begin(task) => Some((s.tasks[task].key, Begun(s.store[s.tasks[task].key])))
    case End(task) => Some((s.tasks[task].key, Ended(s.store[s.tasks[task].key])))
    case Admit(task, key) => if |s.sessions| + s.pendingInitializations >= max then None else Some((key, NewSession()))
    case Registered(task, sid) => Some((s.tasks[task].key, Tracked(s.store[s.tasks[task].key])))
    case InitFailed(task) => Some((s.tasks[task].key, Disposed(s.store[s.tasks[task].key])))
    case EndInit(task) => Some((s.tasks[task].key, Ended(s.store[s.tasks[task].key])))
    case ClosedByClient(sid) => Some((s.sessions[sid], Forgotten(s.store[s.sessions[sid]])))
    case IdleTimer(key) =>
      Some((key, if s.store[key].active > 0 then s.store[key].(armed := false) else Disposed(s.store[key].(armed := false))))
    case _ => None
  }

  lemma StoreChange(max: nat, s: State, e: Event)
    requires Enabled(s, e)
    ensures var c := Touched(max, s, e);
            Step(max, s, e).store == if e.CloseAll? then DisposeEach(s, s.sessions.Values).store
                                     else if c.Some? then s.store[c.value.0 := c.value.1] else s.store
  {
    hide Step; hide Touched; hide Enabled; hide DisposeEach;
    if e.IdleTimer? || e.InitFailed? { DisposalStore(max, s, e); }
    else if e.Begin? || e.End? || e.Lookup? || e.BodyFailed? { RequestStore(max, s, e); }
    else if e.CloseAll? { CloseAllStore(max, s); }
    else { InitialisationStore(max, s, e); }
  }

  lemma CloseAllStore(max: nat, s: State)
    requires Enabled(s, CloseAll)
    ensures Step(max, s, CloseAll).store == DisposeEach(s, s.sessions.Values).store
  {
    hide DisposeEach;
  }

  lemma RequestStore(max: nat, s: State, e: Event)
    requires Enabled(s, e) && (e.Begin? || e.End? || e.Lookup? || e.BodyFailed?)
    ensures var c := Touched(max, s, e); Step(max, s, e).store == if c.Some? then s.store[c.value.0 := c.value.1] else s.store
  {
    hide Begun; hide Ended;
  }

  lemma InitialisationStore(max: nat, s: State, e: Event)
    requires Enabled(s, e) && (e.Admit? || e.Registered? || e.EndInit? || e.ClosedByClient?)
    ensures var c := Touched(max, s, e); Step(max, s, e).store == if c.Some? then s.store[c.value.0 := c.value.1] else s.store
  {
    hide Without; hide Ended; hide Tracked; hide Forgotten; hide NewSession;
  }

  lemma DisposalStore(max: nat, s: State, e: Event)
    requires Enabled(s, e) && (e.IdleTimer? || e.InitFailed?)
    ensures var c := Touched(max, s, e); c.Some? && Step(max, s, e).store == s.store[c.value.0 := c.value.1]
  {
    hide Dispose; hide Disposed; hide FireIdle;
    if e.IdleTimer? { IdleStore(s, e.key); } else { SameDisposed(s, s.tasks[e.task].key); }
  }

  lemma SameDisposed(s: State, k: Key)
    requires k in s.store
    ensures Dispose(s, k).store == s.store[k := Disposed(s.store[k])]
  {
    hide Without; hide Forgotten;
    if s.store[k].disposed { assert s.store[k := s.store[k]] == s.store; }
  }

  lemma IdleStore(s: State, key: Key)
    requires key in s.store
    ensures FireIdle(s, key).store
            == s.store[key := if s.store[key].active > 0 then s.store[key].(armed := false) else Disposed(s.store[key].(armed := false))]
  {
    hide Without; hide Forgotten; hide Disposed;
    var x := s.store[key].(armed := false);
    var t := Update(s, key, x);
    SameDisposed(t, key);
    assert t.store[key := Disposed(x)] == s.store[key := Disposed(x)];
  }

  lemma TouchedTimer(max: nat, s: State, e: Event)
    requires TimersInv(s.store) && FreshInv(s.tasks, s.store) && Enabled(s, e) && Touched(max, s, e).Some?
    ensures TimerInv(Touched(max, s, e).value.1)
  {
    hide FreshInv;
    var k := Touched(max, s, e).value.0;
    if k in s.store { SessionOps(s.store[k]); }
    if e.Registered? { RegisteredIsLive(s.tasks, s.store, e.task); }
  }

  lemma TimersKept(max: nat, s: State, e: Event)
    requires Inv(max, s) && Enabled(s, e)
    ensures TimersInv(Step(max, s, e).store)
  {
    hide CountsInv; hide FreshInv; hide TableInv; hide ClosedInv; hide TimersInv; hide Step; hide Touched; hide Unregistered; hide Enabled;
    StoreChange(max, s, e);
    if e.CloseAll? { AllTimers(s.store, s.sessions.Values); }
    else if Touched(max, s, e).Some? {
      TouchedTimer(max, s, e);
      OneTimer(s.store, Touched(max, s, e).value.0, Touched(max, s, e).value.1);
    }
  }

  // ----- counting tasks -----

  function Replaced(tasks: map<TaskId, Task>, t: TaskId, to: Option<Task>): map<TaskId, Task> {
    if to.Some? then tasks[t := to.value] else tasks - {t}
  }

  /** A set that may lose and gain `t`. */
  lemma SizeChange(a: set<TaskId>, b: set<TaskId>, t: TaskId)
    requires b - {t} == a - {t}
    ensures |b| == |a| - (if t in a then 1 else 0) + (if t in b then 1 else 0)
  {
    assert |a - {t}| == |a| - (if t in a then 1 else 0);
    assert |b - {t}| == |b| - (if t in b then 1 else 0);
  }

  lemma InFlightSame(tasks: map<TaskId, Task>, t: TaskId, to: Option<Task>, k: Key)
    ensures InFlight(Replaced(tasks, t, to), k) - {t} == InFlight(tasks, k) - {t}
  {
    hide RunsOn;
  }

  /** Changing one task changes the count by what it was and what it becomes. */
  lemma InFlightChange(tasks: map<TaskId, Task>, t: TaskId, to: Option<Task>, k: Key)
    ensures |InFlight(Replaced(tasks, t, to), k)| == |InFlight(tasks, k)| - (if t in tasks && RunsOn(tasks[t], k) then 1 else 0)
                                                         + (if to.Some? && RunsOn(to.value, k) then 1 else 0)
  {
    InFlightSame(tasks, t, to, k);
    SizeChange(InFlight(tasks, k), InFlight(Replaced(tasks, t, to), k), t);
  }

  lemma InitializationsSame(tasks: map<TaskId, Task>, t: TaskId, to: Option<Task>)
    ensures Initializations(Replaced(tasks, t, to)) - {t} == Initializations(tasks) - {t}
  {
  }

  lemma InitializationsChange(tasks: map<TaskId, Task>, t: TaskId, to: Option<Task>)
    ensures |Initializations(Replaced(tasks, t, to))| == |Initializations(tasks)| - (if t in tasks && tasks[t].Initializing? then 1 else 0)
                                                                  + (if to.Some? && to.value.Initializing? then 1 else 0)
  {
    InitializationsSame(tasks, t, to);
    SizeChange(Initializations(tasks), Initializations(Replaced(tasks, t, to)), t);
  }

  /** The task a step changes, and what it becomes. */
  function Changed(max: nat, s: State, e: Event): Option<(TaskId, Option<Task>)>
    requires Enabled(s, e)
  {
    match e
    case Lookup(task, sid) => if sid in s.sessions then Some((task, Some(Reading(s.sessions[sid])))) else None
    case BodyFailed(task) => Some((task, None))
    case Begin(task) => Some((task, Some(Running(s.tasks[task].key))))
    case End(task) => Some((task, None))
    case Admit(task, key) =>
      if |s.sessions| + s.pendingInitializations >= max then None else Some((task, Some(Initializing(key, true))))
    case InitFailed(task) => Some((task, Some(Initializing(s.tasks[task].key, false))))
    case EndInit(task) => Some((task, None))
    case _ => None
  }

  lemma TasksChange(max: nat, s: State, e: Event)
    requires Enabled(s, e)
    ensures var c := Changed(max, s, e);
            Step(max, s, e).tasks == if c.None? then s.tasks else Replaced(s.tasks, c.value.0, c.value.1)
  {
  }

  lemma NobodyRuns(tasks: map<TaskId, Task>, k: Key)
    requires forall t | t in tasks :: tasks[t].key != k
    ensures InFlight(tasks, k) == {}
  {
  }

  /** Each session counts its own requests. */
  lemma ActiveKept(max: nat, s: State, e: Event, k: Key)
    requires CountsInv(s.tasks, s.store, s.pendingInitializations) && Enabled(s, e) && k in Step(max, s, e).store
    ensures Step(max, s, e).store[k].active == |InFlight(Step(max, s, e).tasks, k)|
  {
    hide InFlight; hide Initializations; hide Without;
    var c := Changed(max, s, e);
    TasksChange(max, s, e);
    if c.Some? {
      InFlightChange(s.tasks, c.value.0, c.value.1, k);
    }
    if e.Admit? && k == e.key { NobodyRuns(s.tasks, k); }
  }

  lemma InitializationsKept(max: nat, s: State, e: Event)
    requires s.pendingInitializations == |Initializations(s.tasks)| && Enabled(s, e)
    ensures Step(max, s, e).pendingInitializations == |Initializations(Step(max, s, e).tasks)|
  {
    hide Initializations; hide Begun; hide Ended; hide Tracked; hide Disposed; hide Forgotten; hide Without;
    var c := Changed(max, s, e);
    TasksChange(max, s, e);
    if c.Some? { InitializationsChange(s.tasks, c.value.0, c.value.1); }
  }

  lemma KeysKept(max: nat, s: State, e: Event)
    requires (forall t | t in s.tasks :: s.tasks[t].key in s.store) && TableInv(s.sessions, s.store) && Enabled(s, e)
    ensures forall t | t in Step(max, s, e).tasks :: Step(max, s, e).tasks[t].key in Step(max, s, e).store
  {
    hide Begun; hide Ended; hide Tracked; hide Disposed; hide Forgotten; hide Without; hide NewSession;
  }

  lemma CountsKept(max: nat, s: State, e: Event)
    requires CountsInv(s.tasks, s.store, s.pendingInitializations) && TableInv(s.sessions, s.store) && Enabled(s, e)
    ensures var t := Step(max, s, e); CountsInv(t.tasks, t.store, t.pendingInitializations)
  {
    hide InFlight; hide Initializations; hide Step; hide TableInv; hide Enabled;
    var t := Step(max, s, e);
    KeysKept(max, s, e);
    InitializationsKept(max, s, e);
    forall k | k in t.store ensures t.store[k].active == |InFlight(t.tasks, k)| { ActiveKept(max, s, e, k); }
  }

  // ----- the table of ids -----

  lemma TableSame(sessions: map<string, Key>, store: map<Key, Session>, k: Key, x: Session)
    requires TableInv(sessions, store) && x.tracked == (k in store && store[k].tracked)
    ensures TableInv(sessions, store[k := x])
  {
  }

  lemma TableRemove(sessions: map<string, Key>, store: map<Key, Session>, k: Key, x: Session)
    requires TableInv(sessions, store) && !x.tracked
    ensures TableInv(Without(sessions, k), store[k := x])
  {
    var sessions', store' := Without(sessions, k), store[k := x];
    forall j | j in store' && store'[j].tracked ensures exists i :: i in sessions' && sessions'[i] == j {
      var i :| i in sessions && sessions[i] == j;
      assert i in sessions' && sessions'[i] == j;
    }
  }

  lemma TableAdd(sessions: map<string, Key>, store: map<Key, Session>, k: Key, x: Session, sid: string)
    requires TableInv(sessions, store) && x.tracked && sid !in sessions && k in store && !store[k].tracked
    ensures TableInv(sessions[sid := k], store[k := x])
  {
    var sessions', store' := sessions[sid := k], store[k := x];
    forall j | j in store' && store'[j].tracked ensures exists i :: i in sessions' && sessions'[i] == j {
      if j == k { assert sid in sessions' && sessions'[sid] == j; }
      else {
        var i :| i in sessions && sessions[i] == j;
        assert i in sessions' && sessions'[i] == j;
      }
    }
  }

  lemma DisposedIsUntracked(x: Session)
    requires TimerInv(x)
    ensures !Disposed(x).tracked && Disposed(x).disposed && Disposed(x).registered == x.registered && (x.disposed ==> Disposed(x) == x)
  {
  }

  lemma TableEmptied(s: State)
    requires TableInv(s.sessions, s.store) && TimersInv(s.store)
    ensures var t := DisposeEach(s, s.sessions.Values); t.sessions == map[] && TableInv(t.sessions, t.store)
  {
    hide Disposed; hide TimerInv;
    var t := DisposeEach(s, s.sessions.Values);
    forall k | k in t.store ensures !t.store[k].tracked {
      DisposedIsUntracked(s.store[k]);
      if s.store[k].tracked {
        var i :| i in s.sessions && s.sessions[i] == k;
        assert k in s.sessions.Values;
      }
    }
  }

  lemma TableKept(max: nat, s: State, e: Event)
    requires Inv(max, s) && Enabled(s, e)
    ensures TableInv(Step(max, s, e).sessions, Step(max, s, e).store)
  {
    hide CountsInv; hide ClosedInv; hide Unregistered; hide TableInv; hide FreshInv;
    match e {
      case Lookup(task, sid) =>
      case BodyFailed(task) =>
      case Begin(task) => TableSame(s.sessions, s.store, s.tasks[task].key, Begun(s.store[s.tasks[task].key]));
      case End(task) => TableSame(s.sessions, s.store, s.tasks[task].key, Ended(s.store[s.tasks[task].key]));
      case EndInit(task) => TableSame(s.sessions, s.store, s.tasks[task].key, Ended(s.store[s.tasks[task].key]));
      case Admit(task, key) => TableSame(s.sessions, s.store, key, NewSession());
      case Registered(task, sid) =>
        RegisteredIsLive(s.tasks, s.store, task);
        TableAdd(s.sessions, s.store, s.tasks[task].key, Tracked(s.store[s.tasks[task].key]), sid);
      case InitFailed(task) =>
        var k := s.tasks[task].key;
        if !s.store[k].disposed { TableRemove(s.sessions, s.store, k, Disposed(s.store[k])); }
      case ClosedByClient(sid) => TableRemove(s.sessions, s.store, s.sessions[sid], Forgotten(s.store[s.sessions[sid]]));
      case IdleTimer(key) => TableRemoveIdle(s, key);
      case CloseAll => TableEmptied(s);
    }
  }

  lemma TableRemoveIdle(s: State, key: Key)
    requires TableInv(s.sessions, s.store) && TimersInv(s.store) && key in s.store && s.store[key].armed
    ensures var t := Update(s, key, s.store[key].(armed := false));
            t.store[key].active == 0 && !t.store[key].disposed && TableInv(Dispose(t, key).sessions, Dispose(t, key).store)
            && Dispose(t, key).store == s.store[key := Disposed(s.store[key].(armed := false))]
            && Dispose(t, key).sessions == Without(s.sessions, key) && Dispose(t, key).closed == s.closed + multiset{key}
  {
    hide TableInv;
    assert TimerInv(s.store[key]);
    TableRemove(s.sessions, s.store, key, Disposed(s.store[key].(armed := false)));
    var t := Update(s, key, s.store[key].(armed := false));
    assert t.store[key := Disposed(t.store[key])] == s.store[key := Disposed(s.store[key].(armed := false))];
  }

  // ----- sessions without an id -----

  lemma FreshStore(tasks: map<TaskId, Task>, store: map<Key, Session>, k: Key, x: Session)
    requires FreshInv(tasks, store) && k in store && x.registered == store[k].registered
    requires x.disposed == store[k].disposed || x.registered || forall t | t in tasks && tasks[t].key == k && tasks[t].Initializing? :: !tasks[t].handling
    ensures FreshInv(tasks, store[k := x])
  {
  }

  lemma FreshRegistered(tasks: map<TaskId, Task>, store: map<Key, Session>, k: Key, x: Session)
    requires FreshInv(tasks, store) && k in store && x.registered
    ensures FreshInv(tasks, store[k := x])
  {
  }

  lemma FreshDropped(tasks: map<TaskId, Task>, store: map<Key, Session>, t: TaskId)
    requires FreshInv(tasks, store)
    ensures FreshInv(tasks - {t}, store)
  {
  }

  lemma FreshTask(tasks: map<TaskId, Task>, store: map<Key, Session>, t: TaskId, to: Task)
    requires FreshInv(tasks, store) && !to.Initializing? && (to.key in store ==> store[to.key].registered)
    ensures FreshInv(tasks[t := to], store)
  {
  }

  lemma FreshFailed(tasks: map<TaskId, Task>, store: map<Key, Session>, t: TaskId)
    requires FreshInv(tasks, store) && t in tasks && tasks[t].Initializing?
    ensures FreshInv(tasks[t := Initializing(tasks[t].key, false)], store)
  {
  }

  lemma FreshAdmitted(tasks: map<TaskId, Task>, store: map<Key, Session>, t: TaskId, key: Key)
    requires FreshInv(tasks, store) && t !in tasks && key !in store && forall u | u in tasks :: tasks[u].key in store
    ensures FreshInv(tasks[t := Initializing(key, true)], store[key := NewSession()])
  {
  }

  lemma FreshClosed(s: State)
    requires FreshInv(s.tasks, s.store) && TableInv(s.sessions, s.store) && TimersInv(s.store)
    ensures FreshInv(s.tasks, DisposeEach(s, s.sessions.Values).store)
  {
    var t := DisposeEach(s, s.sessions.Values);
    forall k | k in s.store ensures t.store[k].registered == s.store[k].registered && (!s.store[k].registered ==> t.store[k] == s.store[k]) {
      assert TimerInv(s.store[k]);
      if k in s.sessions.Values { var i :| i in s.sessions && s.sessions[i] == k; }
    }
  }

  lemma FreshKept(max: nat, s: State, e: Event)
    requires Inv(max, s) && Enabled(s, e)
    ensures FreshInv(Step(max, s, e).tasks, Step(max, s, e).store)
  {
    hide InFlight; hide Initializations; hide Unregistered; hide FreshInv; hide TableInv; hide ClosedInv;
    match e {
      case Lookup(task, sid) =>
        if sid in s.sessions {
          TrackedByTable(s.sessions, s.store, sid);
          FreshTask(s.tasks, s.store, task, Reading(s.sessions[sid]));
        }
      case BodyFailed(task) => FreshDropped(s.tasks, s.store, task);
      case Begin(task) =>
        var k := s.tasks[task].key;
        ReadsRegistered(s.tasks, s.store, task);
        FreshTask(s.tasks, s.store, task, Running(k));
        FreshStore(s.tasks[task := Running(k)], s.store, k, Begun(s.store[k]));
      case End(task) =>
        var k := s.tasks[task].key;
        FreshDropped(s.tasks, s.store, task);
        FreshStore(s.tasks - {task}, s.store, k, Ended(s.store[k]));
      case EndInit(task) =>
        var k := s.tasks[task].key;
        FreshDropped(s.tasks, s.store, task);
        FreshStore(s.tasks - {task}, s.store, k, Ended(s.store[k]));
      case Admit(task, key) => FreshAdmitted(s.tasks, s.store, task, key);
      case Registered(task, sid) => FreshRegistered(s.tasks, s.store, s.tasks[task].key, Tracked(s.store[s.tasks[task].key]));
      case InitFailed(task) =>
        var k := s.tasks[task].key;
        FreshFailed(s.tasks, s.store, task);
        OnlyInitializer(s.tasks, s.store, task, s.tasks[task := Initializing(k, false)]);
        FreshStore(s.tasks[task := Initializing(k, false)], s.store, k, Disposed(s.store[k]));
      case ClosedByClient(sid) =>
        TrackedByTable(s.sessions, s.store, sid);
        FreshRegistered(s.tasks, s.store, s.sessions[sid], Forgotten(s.store[s.sessions[sid]]));
      case IdleTimer(key) =>
        TableRemoveIdle(s, key);
        assert TimerInv(s.store[key]);
        FreshRegistered(s.tasks, s.store, key, Disposed(s.store[key].(armed := false)));
      case CloseAll => FreshClosed(s);
    }
  }

  lemma TrackedByTable(sessions: map<string, Key>, store: map<Key, Session>, sid: string)
    requires TableInv(sessions, store) && TimersInv(store) && sid in sessions
    ensures sessions[sid] in store && store[sessions[sid]].tracked && store[sessions[sid]].registered && !store[sessions[sid]].disposed
  {
    assert TimerInv(store[sessions[sid]]);
  }

  lemma ReadsRegistered(tasks: map<TaskId, Task>, store: map<Key, Session>, t: TaskId)
    requires FreshInv(tasks, store) && t in tasks && !tasks[t].Initializing? && tasks[t].key in store
    ensures store[tasks[t].key].registered
  {
  }

  lemma OnlyInitializer(tasks: map<TaskId, Task>, store: map<Key, Session>, t: TaskId, tasks': map<TaskId, Task>)
    requires FreshInv(tasks, store) && t in tasks && tasks[t].Initializing? && tasks' == tasks[t := Initializing(tasks[t].key, false)]
    ensures forall u | u in tasks' && tasks'[u].key == tasks[t].key && tasks'[u].Initializing? :: !tasks'[u].handling
  {
  }

  // ----- closing -----

  lemma ClosedSame(closed: multiset<Key>, store: map<Key, Session>, k: Key, x: Session)
    requires ClosedInv(closed, store) && x.disposed == (k in store && store[k].disposed)
    ensures ClosedInv(closed, store[k := x])
  {
  }

  lemma ClosedOnce(closed: multiset<Key>, store: map<Key, Session>, k: Key, x: Session)
    requires ClosedInv(closed, store) && k in store && !store[k].disposed && x.disposed
    ensures ClosedInv(closed + multiset{k}, store[k := x])
  {
  }

  lemma ClosedAll(s: State)
    requires ClosedInv(s.closed, s.store) && TimersInv(s.store)
    ensures ClosedInv(DisposeEach(s, s.sessions.Values).closed, DisposeEach(s, s.sessions.Values).store)
  {
    hide Disposed; hide TimerInv;
    var t := DisposeEach(s, s.sessions.Values);
    forall k ensures t.closed[k] == if k in t.store && t.store[k].disposed then 1 else 0 {
      if k in s.store { DisposedIsUntracked(s.store[k]); }
    }
  }

  lemma ClosedKept(max: nat, s: State, e: Event)
    requires Inv(max, s) && Enabled(s, e)
    ensures ClosedInv(Step(max, s, e).closed, Step(max, s, e).store)
  {
    hide CountsInv; hide FreshInv; hide TableInv; hide ClosedInv; hide Unregistered;
    match e {
      case Lookup(task, sid) =>
      case BodyFailed(task) =>
      case Begin(task) => ClosedSame(s.closed, s.store, s.tasks[task].key, Begun(s.store[s.tasks[task].key]));
      case End(task) => ClosedSame(s.closed, s.store, s.tasks[task].key, Ended(s.store[s.tasks[task].key]));
      case EndInit(task) => ClosedSame(s.closed, s.store, s.tasks[task].key, Ended(s.store[s.tasks[task].key]));
      case Admit(task, key) => ClosedSame(s.closed, s.store, key, NewSession());
      case Registered(task, sid) => ClosedSame(s.closed, s.store, s.tasks[task].key, Tracked(s.store[s.tasks[task].key]));
      case InitFailed(task) =>
        var k := s.tasks[task].key;
        if !s.store[k].disposed { ClosedOnce(s.closed, s.store, k, Disposed(s.store[k])); }
      case ClosedByClient(sid) => ClosedSame(s.closed, s.store, s.sessions[sid], Forgotten(s.store[s.sessions[sid]]));
      case IdleTimer(key) =>
        TableRemoveIdle(s, key);
        ClosedOnce(s.closed, s.store, key, Disposed(s.store[key].(armed := false)));
      case CloseAll => ClosedAll(s);
    }
  }

  // ----- capacity -----

  lemma FewerIds(m: map<string, Key>, k: Key)
    ensures |Without(m, k)| <= |m|
  {
    assert Without(m, k).Keys <= m.Keys;
    SubsetSize(Without(m, k).Keys, m.Keys);
  }

  /** Only what a session's `registered` says matters. */
  lemma UnregisteredStore(tasks: map<TaskId, Task>, store: map<Key, Session>, store': map<Key, Session>)
    requires store'.Keys == store.Keys && forall k | k in store :: store'[k].registered == store[k].registered
    ensures Unregistered(tasks, store') == Unregistered(tasks, store)
  {
    assert forall k :: k in store' <==> k in store.Keys;
  }

  lemma UnregisteredTask(tasks: map<TaskId, Task>, store: map<Key, Session>, t: TaskId, to: Option<Task>)
    requires to.Some? ==> if t in tasks then tasks[t].Initializing? == to.value.Initializing? && tasks[t].key == to.value.key
                          else !to.value.Initializing?
    ensures Unregistered(Replaced(tasks, t, to), store) <= Unregistered(tasks, store)
  {
  }

  lemma UnregisteredAdmit(tasks: map<TaskId, Task>, store: map<Key, Session>, t: TaskId, key: Key)
    requires t !in tasks && key !in store && forall u | u in tasks :: tasks[u].key in store
    ensures |Unregistered(tasks[t := Initializing(key, true)], store[key := NewSession()])| <= |Initializations(tasks)| + 1
  {
    SubsetSize(Unregistered(tasks[t := Initializing(key, true)], store[key := NewSession()]), Initializations(tasks) + {t});
  }

  lemma UnregisteredLess(tasks: map<TaskId, Task>, store: map<Key, Session>, t: TaskId, x: Session)
    requires t in tasks && tasks[t].Initializing? && tasks[t].key in store && !store[tasks[t].key].registered && x.registered
    ensures |Unregistered(tasks, store[tasks[t].key := x])| + 1 <= |Unregistered(tasks, store)|
  {
    var a, b := Unregistered(tasks, store[tasks[t].key := x]), Unregistered(tasks, store);
    assert a <= b - {t} && t in b;
    SubsetSize(a, b - {t});
  }

  function Load(s: State): nat { |s.sessions| + |Unregistered(s.tasks, s.store)| }

  lemma TouchedFlag(max: nat, s: State, e: Event)
    requires Enabled(s, e) && !e.Admit? && !e.Registered? && Touched(max, s, e).Some?
    ensures var (k, x) := Touched(max, s, e).value; k in s.store && x.registered == s.store[k].registered
  {
  }

  lemma SameFlags(max: nat, s: State, e: Event)
    requires Enabled(s, e) && !e.Admit? && !e.Registered?
    ensures var t := Step(max, s, e);
            t.store.Keys == s.store.Keys && forall k | k in s.store :: t.store[k].registered == s.store[k].registered
  {
    hide Step; hide Touched; hide Enabled;
    StoreChange(max, s, e);
    if !e.CloseAll? && Touched(max, s, e).Some? { TouchedFlag(max, s, e); }
  }

  lemma IdsShrink(max: nat, s: State, e: Event)
    requires Enabled(s, e) && !e.Registered?
    ensures |Step(max, s, e).sessions| <= |s.sessions|
  {
    hide Without; hide Disposed; hide Forgotten; hide Begun; hide Ended;
    match e {
      case InitFailed(task) => FewerIds(s.sessions, s.tasks[task].key);
      case ClosedByClient(sid) => FewerIds(s.sessions, s.sessions[sid]);
      case IdleTimer(key) => FewerIds(s.sessions, key);
      case CloseAll => SubsetSize(DisposeEach(s, s.sessions.Values).sessions.Keys, s.sessions.Keys);
      case Lookup(_, _) =>
      case BodyFailed(_) =>
      case Begin(_) =>
      case End(_) =>
      case Admit(_, _) =>
      case EndInit(_) =>
    }
  }

  lemma CapacityKept(max: nat, s: State, e: Event)
    requires Inv(max, s) && Enabled(s, e)
    ensures Load(Step(max, s, e)) <= max
  {
    hide FreshInv; hide TableInv; hide ClosedInv; hide Unregistered; hide InFlight; hide Initializations; hide TimersInv; hide DisposeEach;
    hide Without; hide Replaced;
    var t := Step(max, s, e);
    if e.Admit? {
      if t != s { UnregisteredAdmit(s.tasks, s.store, e.task, e.key); }
    } else if e.Registered? {
      UnregisteredLess(s.tasks, s.store, e.task, Tracked(s.store[s.tasks[e.task].key]));
      assert |t.sessions| == |s.sessions| + 1;
    } else {
      SameFlags(max, s, e);
      IdsShrink(max, s, e);
      UnregisteredStore(t.tasks, s.store, t.store);
      var c := Changed(max, s, e);
      TasksChange(max, s, e);
      if c.Some? {
        UnregisteredTask(s.tasks, s.store, c.value.0, c.value.1);
        SubsetSize(Unregistered(t.tasks, s.store), Unregistered(s.tasks, s.store));
      }
    }
  }

  // ----- all runs -----

  lemma StepKeepsInv(max: nat, s: State, e: Event)
    requires Inv(max, s) && Enabled(s, e)
    ensures Inv(max, Step(max, s, e))
  {
    hide CountsInv; hide FreshInv; hide TableInv; hide ClosedInv; hide TimersInv; hide Unregistered; hide Step;
    CountsKept(max, s, e);
    TimersKept(max, s, e);
    TableKept(max, s, e);
    FreshKept(max, s, e);
    ClosedKept(max, s, e);
    CapacityKept(max, s, e);
  }

  lemma {:induction false} ReachesInv(max: nat, es: seq<Event>, s: State)
    requires Reaches(max, es, s)
    ensures Inv(max, s)
    decreases |es|
  {
    if es != [] {
      hide Inv; hide Step;
      var front, e := es[..|es| - 1], es[|es| - 1];
      var p :| Reaches(max, front, p) && Succ(max, p, e, s);
      ReachesInv(max, front, p);
      StepKeepsInv(max, p, e);
    } else {
      InitInv(max);
    }
  }

  lemma InitInv(max: nat)
    ensures Inv(max, Init())
  {
  }

  lemma ReachableInv(max: nat, s: State)
    requires Reachable(max, s)
    ensures Inv(max, s)
  {
    hide Inv;
    var es :| Reaches(max, es, s);
    ReachesInv(max, es, s);
  }

  // ----- what it gives -----

  /** However initialisations, requests, timers and closings interleave, the session limit is never exceeded. */
  lemma WithinCapacity(max: nat, s: State)
    requires Reachable(max, s)
    ensures |s.sessions| <= max && |s.sessions| + |Unregistered(s.tasks, s.store)| <= max
  {
    ReachableInv(max, s);
  }

  /** A session's counter is the number of requests in flight on it, and capacity is held exactly by running initialisations. */
  lemma CountersAreExact(max: nat, s: State)
    requires Reachable(max, s)
    ensures forall k | k in s.store :: s.store[k].active == |InFlight(s.tasks, k)|
    ensures s.pendingInitializations == |Initializations(s.tasks)|
  {
    ReachableInv(max, s);
    hide TimersInv; hide TableInv; hide FreshInv; hide ClosedInv;
  }

  /** A timer is armed exactly for the idle sessions that are still in the table, and none of those has been disposed of. */
  lemma TimerIffIdle(max: nat, s: State, k: Key)
    requires Reachable(max, s) && k in s.store
    ensures s.store[k].armed <==> s.store[k].tracked && InFlight(s.tasks, k) == {}
    ensures s.store[k].tracked <==> k in s.sessions.Values
    ensures s.store[k].tracked ==> !s.store[k].disposed
  {
    ReachableInv(max, s);
    hide FreshInv; hide ClosedInv; hide InFlight; hide Unregistered; hide Initializations;
    assert TimerInv(s.store[k]);
    assert s.store[k].active == |InFlight(s.tasks, k)|;
    assert |InFlight(s.tasks, k)| == 0 <==> InFlight(s.tasks, k) == {};
  }

  /** No session's server is closed twice. */
  lemma ClosedAtMostOnce(max: nat, s: State, k: Key)
    requires Reachable(max, s)
    ensures s.closed[k] == if k in s.store && s.store[k].disposed then 1 else 0
  {
    ReachableInv(max, s);
    hide CountsInv; hide TimersInv; hide TableInv; hide FreshInv;
  }

  /** The idle timer never disposes of a session with a request in flight: it always finds the counter at zero. */
  lemma IdleTimerFindsNoRequest(max: nat, s: State, key: Key)
    requires Reachable(max, s) && Enabled(s, IdleTimer(key))
    ensures InFlight(s.tasks, key) == {} && Step(max, s, IdleTimer(key)).store[key].disposed
    ensures Step(max, s, IdleTimer(key)).closed == s.closed + multiset{key} && key !in Step(max, s, IdleTimer(key)).sessions.Values
  {
    hide FreshInv; hide ClosedInv; hide CountsInv; hide InFlight; hide TableInv; hide TimersInv; hide Reachable; hide Unregistered;
    ReachableInv(max, s);
    TimerIffIdle(max, s, key);
    TableRemoveIdle(s, key);
  }

  /** The sessions a step may dispose of. */
  predicate MayDispose(s: State, e: Event, k: Key)
    requires Enabled(s, e)
  {
    match e
    case InitFailed(task) => k == s.tasks[task].key
    case IdleTimer(key) => k == key
    case CloseAll => k in s.sessions.Values
    case _ => false
  }

  lemma OthersStay(max: nat, s: State, e: Event, k: Key)
    requires Enabled(s, e) && k in s.store && !MayDispose(s, e, k)
    requires e.Registered? ==> k != s.tasks[e.task].key
    requires !s.store[k].tracked
    ensures var t := Step(max, s, e);
            k in t.store && t.store[k].registered == s.store[k].registered && !t.store[k].tracked
            && t.store[k].disposed == s.store[k].disposed && t.closed[k] == s.closed[k]
  {
    hide Without;
    if e.CloseAll? { ClosedMany(s, k); }
  }

  /** A session that was registered and has left the table without being disposed of, as when its client closes it. */
  ghost predicate ClientClosed(s: State, k: Key) {
    && k in s.store && s.store[k].registered && !s.store[k].tracked && !s.store[k].disposed
    && forall t | t in s.tasks && s.tasks[t].key == k :: !s.tasks[t].Initializing? || !s.tasks[t].handling
  }

  lemma ClosedStep(max: nat, s: State, e: Event, k: Key)
    requires Reachable(max, s) && Enabled(s, e) && ClientClosed(s, k)
    ensures ClientClosed(Step(max, s, e), k) && Step(max, s, e).closed[k] == s.closed[k]
  {
    hide Step; hide Reachable; hide InFlight;
    TimerIffIdle(max, s, k);
    OthersStay(max, s, e, k);
    TasksChange(max, s, e);
  }

  /** The states the events `es` lead to from `s`. */
  ghost predicate Leads(max: nat, s: State, es: seq<Event>, t: State)
    decreases |es|
  {
    if es == [] then t == s
    else
      var front, e := es[..|es| - 1], es[|es| - 1];
      exists p :: Leads(max, s, front, p) && Succ(max, p, e, t)
  }

  lemma ReachesFurther(max: nat, es: seq<Event>, s: State, e: Event)
    requires Reaches(max, es, s) && Enabled(s, e)
    ensures Reaches(max, es + [e], Step(max, s, e))
  {
    var all := es + [e];
    assert all[..|all| - 1] == es && all[|all| - 1] == e;
    assert Succ(max, s, e, Step(max, s, e));
  }

  lemma ReachableFurther(max: nat, s: State, e: Event)
    requires Reachable(max, s) && Enabled(s, e)
    ensures Reachable(max, Step(max, s, e))
  {
    hide Step; hide Reaches;
    var es :| Reaches(max, es, s);
    ReachesFurther(max, es, s, e);
  }

  /** Closing by the client forgets the session that had the id, undisposed. */
  lemma ClientCloses(max: nat, s: State, sid: string)
    requires Reachable(max, s) && Enabled(s, ClosedByClient(sid))
    requires forall t | t in s.tasks && s.tasks[t].key == s.sessions[sid] :: !s.tasks[t].Initializing? || !s.tasks[t].handling
    ensures ClientClosed(Step(max, s, ClosedByClient(sid)), s.sessions[sid])
  {
    var k := s.sessions[sid];
    ReachableInv(max, s);
  }

  /** A session the client closed is forgotten without being disposed of, and nothing that happens later disposes of it. */
  lemma {:induction false} ClientCloseNeverDisposes(max: nat, s: State, es: seq<Event>, t: State, k: Key)
    requires Reachable(max, s) && ClientClosed(s, k) && Leads(max, s, es, t)
    ensures Reachable(max, t) && ClientClosed(t, k) && t.closed[k] == s.closed[k] == 0
    decreases |es|
  {
    hide Step; hide Reachable; hide ClientClosed;
    if es == [] {
      ClosedAtMostOnce(max, s, k);
      NotDisposed(s, k);
    } else {
      var front, e := es[..|es| - 1], es[|es| - 1];
      var p :| Leads(max, s, front, p) && Succ(max, p, e, t);
      ClientCloseNeverDisposes(max, s, front, p, k);
      ClosedStep(max, p, e, k);
      ReachableFurther(max, p, e);
    }
  }

  lemma NotDisposed(s: State, k: Key)
    requires ClientClosed(s, k)
    ensures k in s.store && !s.store[k].disposed
  {
  }

  lemma ClosedMany(s: State, k: Key)
    requires k in s.store && k !in s.sessions.Values
    ensures var t := DisposeEach(s, s.sessions.Values); k in t.store && t.store[k] == s.store[k] && t.closed[k] == s.closed[k]
  {
  }

  /** Closing the server disposes of every session in the table and empties it; capacity held by initialisations stays held. */
  lemma CloseAllEmpties(max: nat, s: State)
    requires Reachable(max, s)
    ensures Enabled(s, CloseAll)
    ensures var t := Step(max, s, CloseAll);
            && t.sessions == map[] && t.pendingInitializations == s.pendingInitializations
            && forall i | i in s.sessions :: t.store[s.sessions[i]].disposed && t.closed[s.sessions[i]] == 1
  {
    hide FreshInv; hide CountsInv; hide InFlight; hide ClosedInv; hide TimersInv; hide Disposed; hide Unregistered; hide Reachable;
    ReachableInv(max, s);
    var t := Step(max, s, CloseAll);
    TableEmptied(s);
    ClosedAll(s);
    forall i | i in s.sessions ensures t.store[s.sessions[i]].disposed && t.closed[s.sessions[i]] == 1 {
      assert s.sessions[i] in s.sessions.Values;
      TrackedByTable(s.sessions, s.store, i);
      TimerAt(s.store, s.sessions[i]);
      DisposedIsUntracked(s.store[s.sessions[i]]);
      ClosedAt(t.closed, t.store, s.sessions[i]);
    }
  }

  lemma TimerAt(store: map<Key, Session>, k: Key)
    requires TimersInv(store) && k in store
    ensures TimerInv(store[k])
  {
  }

  lemma ClosedAt(closed: multiset<Key>, store: map<Key, Session>, k: Key)
    requires ClosedInv(closed, store) && k in store && store[k].disposed
    ensures closed[k] == 1
  {
  }
}
