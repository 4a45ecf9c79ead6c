/**
 * The HTTP session manager between awaits: admission, registration, requests in flight, idle timers and disposal. Every step
 * runs to completion; what an await lets in between are further steps. Session objects are named by keys, requests by task ids.
 */
module Sessions {
  import opened Values

  type Key = nat

  type TaskId = nat

  /** `registered` remembers that the session was once put under an id. */
  datatype Session = Session(active: nat, armed: bool, tracked: bool, disposed: bool, registered: bool)

  /** A request that looked its session up and reads its body, runs in it, or runs the initialisation of a new one. */
  datatype Task = Reading(key: Key) | Running(key: Key) | Initializing(key: Key, handling: bool)

  /** `closed` counts the calls of `server.close` per session. */
  datatype State = State(sessions: map<string, Key>, store: map<Key, Session>, pendingInitializations: int, tasks: map<TaskId, Task>,
                         closed: multiset<Key>)

  function Init(): State { State(map[], map[], 0, map[], multiset{}) }

  // ----- one session -----

  function NewSession(): Session { Session(1, false, false, false, false) }

  function Forgotten(x: Session): Session { x.(armed := false, tracked := false) }

  function Armed(x: Session): Session { if x.disposed || !x.tracked || x.active > 0 then x else x.(armed := true) }

  function Begun(x: Session): Session { x.(armed := false, active := x.active + 1) }

  function Ended(x: Session): Session {
    var y := x.(active := if x.active > 0 then x.active - 1 else 0);
    if y.active == 0 then Armed(y) else y
  }

  function Disposed(x: Session): Session { if x.disposed then x else Forgotten(x.(disposed := true)) }

  function Tracked(x: Session): Session { Armed(x.(tracked := true, registered := true)) }

  // ----- the table of ids -----

  /** The entries of `m` that do not lead to `k`. */
  function Without<K(==)>(m: map<string, K>, k: K): map<string, K> { map i | i in m && m[i] != k :: m[i] }

  // ----- steps -----

  function Update(s: State, k: Key, x: Session): State { s.(store := s.store[k := x]) }

  function Forget(s: State, k: Key): State
    requires k in s.store
  {
    Update(s, k, Forgotten(s.store[k])).(sessions := Without(s.sessions, k))
  }

  function Dispose(s: State, k: Key): State
    requires k in s.store
  {
    if s.store[k].disposed then s
    else Update(s, k, Disposed(s.store[k])).(sessions := Without(s.sessions, k), closed := s.closed + multiset{k})
  }

  /** The idle timer's callback. */
  function FireIdle(s: State, k: Key): State
    requires k in s.store
  {
    var t := Update(s, k, s.store[k].(armed := false));
    if t.store[k].active > 0 then t else Dispose(t, k)
  }

  datatype Event =
    | Lookup(task: TaskId, sid: string)
    | BodyFailed(task: TaskId)
    | Begin(task: TaskId)
    | End(task: TaskId)
    | Admit(task: TaskId, key: Key)
    | Registered(task: TaskId, sid: string)
    | InitFailed(task: TaskId)
    | EndInit(task: TaskId)
    | ClosedByClient(sid: string)
    | IdleTimer(key: Key)
    | CloseAll

  /**
   * What the environment guarantees: task ids, session keys and session ids are fresh; callbacks belong to tasks in the right
   * stage; a session is registered at most once, while its initialisation is being handled; only an armed timer fires.
   */
  ghost predicate Enabled(s: State, e: Event) {
    match e
    case Lookup(task, sid) => task !in s.tasks
    case BodyFailed(task) => task in s.tasks && s.tasks[task].Reading?
    case Begin(task) => task in s.tasks && s.tasks[task].Reading? && s.tasks[task].key in s.store
    case End(task) => task in s.tasks && s.tasks[task].Running? && s.tasks[task].key in s.store
    case Admit(task, key) => task !in s.tasks && key !in s.store
    case Registered(task, sid) =>
      task in s.tasks && s.tasks[task].Initializing? && s.tasks[task].handling && s.tasks[task].key in s.store
      && !s.store[s.tasks[task].key].registered && sid !in s.sessions
    case InitFailed(task) => task in s.tasks && s.tasks[task].Initializing? && s.tasks[task].handling && s.tasks[task].key in s.store
    case EndInit(task) => task in s.tasks && s.tasks[task].Initializing? && s.tasks[task].key in s.store
    case ClosedByClient(sid) => sid in s.sessions && s.sessions[sid] in s.store
    case IdleTimer(key) => key in s.store && s.store[key].armed
    case CloseAll => forall i | i in s.sessions :: s.sessions[i] in s.store
  }

  function Step(max: nat, s: State, e: Event): State
    requires Enabled(s, e)
  {
    match e
    case Lookup(task, sid) => if sid in s.sessions then s.(tasks := s.tasks[task := Reading(s.sessions[sid])]) else s
    case BodyFailed(task) => s.(tasks := s.tasks - {task})
    case Begin(task) =>
      var k := s.tasks[task].key;
      Update(s, k, Begun(s.store[k])).(tasks := s.tasks[task := Running(k)])
    case End(task) =>
      var k := s.tasks[task].key;
      Update(s, k, Ended(s.store[k])).(tasks := s.tasks - {task})
    case Admit(task, key) =>
      if |s.sessions| + s.pendingInitializations >= max then s
      else Update(s, key, NewSession()).(pendingInitializations := s.pendingInitializations + 1,
                                         tasks := s.tasks[task := Initializing(key, true)])
    case Registered(task, sid) =>
      var k := s.tasks[task].key;
      Update(s, k, Tracked(s.store[k])).(sessions := s.sessions[sid := k])
    case InitFailed(task) =>
      var k := s.tasks[task].key;
      Dispose(s, k).(tasks := s.tasks[task := Initializing(k, false)])
    case EndInit(task) =>
      var k := s.tasks[task].key;
      Update(s, k, Ended(s.store[k])).(pendingInitializations := s.pendingInitializations - 1, tasks := s.tasks - {task})
    case ClosedByClient(sid) => Forget(s, s.sessions[sid])
    case IdleTimer(key) => FireIdle(s, key)
    case CloseAll => DisposeEach(s, s.sessions.Values)
  }

  /** Disposing several sessions: each is closed unless it was, and all their ids go. */
  function DisposeEach(s: State, ks: set<Key>): State {
    s.(store := map k | k in s.store :: if k in ks then Disposed(s.store[k]) else s.store[k],
       sessions := map i | i in s.sessions && s.sessions[i] !in ks :: s.sessions[i],
       closed := s.closed + multiset(set k | k in ks && k in s.store && !s.store[k].disposed))
  }

  // ----- runs -----

  ghost predicate Succ(max: nat, p: State, e: Event, s: State) { Enabled(p, e) && s == Step(max, p, e) }

  ghost predicate Reaches(max: nat, es: seq<Event>, s: State)
    decreases |es|
  {
    if es == [] then s == Init()
    else
      var front, e := es[..|es| - 1], es[|es| - 1];
      exists p :: Reaches(max, front, p) && Succ(max, p, e, s)
  }

  ghost predicate Reachable(max: nat, s: State) { exists es :: Reaches(max, es, s) }

  // ----- the invariant -----

  predicate RunsOn(t: Task, k: Key) { !t.Reading? && t.key == k }

  /** The requests in flight on a session. */
  function InFlight(tasks: map<TaskId, Task>, k: Key): set<TaskId> { set t | t in tasks && RunsOn(tasks[t], k) }

  function Initializations(tasks: map<TaskId, Task>): set<TaskId> { set t | t in tasks && tasks[t].Initializing? }

  /** Initialisations whose session has no id yet. */
  function Unregistered(tasks: map<TaskId, Task>, store: map<Key, Session>): set<TaskId> {
    set t | t in tasks && tasks[t].Initializing? && tasks[t].key in store && !store[tasks[t].key].registered
  }

  ghost predicate CountsInv(tasks: map<TaskId, Task>, store: map<Key, Session>, pendingInitializations: int) {
    && (forall t | t in tasks :: tasks[t].key in store)
    && (forall k | k in store :: store[k].active == |InFlight(tasks, k)|)
    && pendingInitializations == |Initializations(tasks)|
  }

  /** The timer runs exactly while the session is reachable by its id and idle. */
  ghost predicate TimerInv(x: Session) {
    && (x.armed <==> x.tracked && x.active == 0)
    && (x.tracked ==> !x.disposed && x.registered)
  }

  ghost predicate TimersInv(store: map<Key, Session>) { forall k | k in store :: TimerInv(store[k]) }

  ghost predicate TableInv(sessions: map<string, Key>, store: map<Key, Session>) {
    && (forall i | i in sessions :: sessions[i] in store && store[sessions[i]].tracked)
    && (forall i, j | i in sessions && j in sessions && sessions[i] == sessions[j] :: i == j)
    && (forall k | k in store && store[k].tracked :: exists i :: i in sessions && sessions[i] == k)
  }

  /** A session without id belongs to its initialisation alone, and is disposed of only at its end. */
  ghost predicate FreshInv(tasks: map<TaskId, Task>, store: map<Key, Session>) {
    && (forall t, u | t in tasks && u in tasks && tasks[t].Initializing? && tasks[u].Initializing? && tasks[t].key == tasks[u].key :: t == u)
    && (forall t | t in tasks && tasks[t].key in store && !store[tasks[t].key].registered :: tasks[t].Initializing?)
    && (forall t | t in tasks && tasks[t].Initializing? && tasks[t].handling && tasks[t].key in store
                   && !store[tasks[t].key].registered :: !store[tasks[t].key].disposed)
  }

  /** Every session's server is closed as often as it was disposed of: never or once. */
  ghost predicate ClosedInv(closed: multiset<Key>, store: map<Key, Session>) {
    forall k :: closed[k] == if k in store && store[k].disposed then 1 else 0
  }

  ghost predicate Inv(max: nat, s: State) {
    && CountsInv(s.tasks, s.store, s.pendingInitializations)
    && TimersInv(s.store)
    && TableInv(s.sessions, s.store)
    && FreshInv(s.tasks, s.store)
    && |s.sessions| + |Unregistered(s.tasks, s.store)| <= max
    && ClosedInv(s.closed, s.store)
  }
}
