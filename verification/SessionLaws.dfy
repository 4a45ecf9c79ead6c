/** What single steps of the session manager do to the session they are about, field by field. */
module SessionLaws {
  import opened Values
  import opened Sessions
  import opened SessionsInvariant

  /** Disposed of for good: its server was closed once, no id leads to it, no timer runs for it. */
  ghost predicate Gone(s: State, k: Key) {
    && k in s.store && s.store[k].disposed && !s.store[k].tracked && !s.store[k].armed
    && s.closed[k] == 1 && k !in s.sessions.Values
  }

  lemma DisposedIsGone(max: nat, s: State, k: Key)
    requires Reachable(max, s) && k in s.store && s.store[k].disposed
    ensures Gone(s, k)
  {
    hide InFlight;
    ClosedAtMostOnce(max, s, k);
    TimerIffIdle(max, s, k);
  }

  /** A failed initialisation disposes of its session, which holds its place until the request ends. */
  lemma FailedInitDisposes(max: nat, s: State, task: TaskId)
    requires Reachable(max, s) && Enabled(s, InitFailed(task))
    ensures var t, k := Step(max, s, InitFailed(task)), s.tasks[task].key;
            && Reachable(max, t) && Gone(t, k) && t.pendingInitializations == s.pendingInitializations
            && t.sessions.Keys == set i | i in s.sessions && s.sessions[i] != k
            && Enabled(t, EndInit(task)) && !Enabled(t, Registered(task, "")) && !Enabled(t, InitFailed(task))
  {
    hide Reachable; hide Gone;
    var t, k := Step(max, s, InitFailed(task)), s.tasks[task].key;
    ReachableFurther(max, s, InitFailed(task));
    DisposedIsGone(max, t, k);
    if s.store[k].disposed {
      DisposedIsGone(max, s, k);
      GoneIsUnlisted(s, k);
    }
  }

  lemma GoneIsUnlisted(s: State, k: Key)
    requires Gone(s, k)
    ensures forall i | i in s.sessions :: s.sessions[i] != k
  {
    forall i | i in s.sessions ensures s.sessions[i] != k { assert s.sessions[i] in s.sessions.Values; }
  }

  lemma StepStaysDisposed(max: nat, s: State, e: Event, k: Key)
    requires Enabled(s, e) && k in s.store && s.store[k].disposed
    ensures var t := Step(max, s, e); k in t.store && t.store[k].disposed
  {
    hide Without;
  }

  /** No session comes back: whatever happens later, it stays closed once and out of the table. */
  lemma {:induction false} GoneForGood(max: nat, s: State, es: seq<Event>, t: State, k: Key)
    requires Reachable(max, s) && Gone(s, k) && Leads(max, s, es, t)
    ensures Reachable(max, t) && Gone(t, k)
    decreases |es|
  {
    hide Step; hide Reachable;
    if es != [] {
      var front, e := es[..|es| - 1], es[|es| - 1];
      var p :| Leads(max, s, front, p) && Succ(max, p, e, t);
      GoneForGood(max, s, front, p, k);
      StepStaysDisposed(max, p, e, k);
      ReachableFurther(max, p, e);
      DisposedIsGone(max, t, k);
    }
  }

  /** A request counts from its beginning to its end; its end, if it was the last, arms the timer of a session still in the table. */
  lemma RequestsCount(max: nat, s: State, task: TaskId)
    requires Reachable(max, s) && task in s.tasks && s.tasks[task].key in s.store
    ensures var k := s.tasks[task].key;
            s.tasks[task].Reading? ==>
              var t := Step(max, s, Begin(task));
              t.store[k].active == s.store[k].active + 1 && !t.store[k].armed && t.tasks[task] == Running(k) && t.sessions == s.sessions
    ensures var k := s.tasks[task].key;
            s.tasks[task].Running? ==>
              var t := Step(max, s, End(task));
              && s.store[k].active > 0 && t.store[k].active == s.store[k].active - 1 && task !in t.tasks && t.sessions == s.sessions
              && (t.store[k].armed <==> t.store[k].active == 0 && k in s.sessions.Values)
  {
    hide Reachable; hide InFlight;
    var k := s.tasks[task].key;
    TimerIffIdle(max, s, k);
    CountersAreExact(max, s);
    if s.tasks[task].Running? { RunnerCounts(s.tasks, task); }
  }

  lemma RunnerCounts(tasks: map<TaskId, Task>, t: TaskId)
    requires t in tasks && tasks[t].Running?
    ensures |InFlight(tasks, tasks[t].key)| > 0
  {
    assert t in InFlight(tasks, tasks[t].key);
  }

  /** An initialisation is let in exactly while sessions and running initialisations leave room, and then counts as a request. */
  lemma AdmittedIff(max: nat, s: State, task: TaskId, key: Key)
    requires Enabled(s, Admit(task, key))
    ensures var t := Step(max, s, Admit(task, key));
            (task in t.tasks <==> |s.sessions| + s.pendingInitializations < max)
            && (task in t.tasks ==> t.tasks[task] == Initializing(key, true) && key in t.store && t.store[key].active == 1
                                    && t.pendingInitializations == s.pendingInitializations + 1)
            && (task !in t.tasks ==> t == s)
            && t.sessions == s.sessions
  {
  }

  /** A session that gets its id is found under it from then on; its timer waits for the initialisation to end. */
  lemma RegisteredIsFound(max: nat, s: State, task: TaskId, sid: string, next: TaskId)
    requires Reachable(max, s) && Enabled(s, Registered(task, sid)) && next !in s.tasks
    ensures var t, k := Step(max, s, Registered(task, sid)), s.tasks[task].key;
            && sid in t.sessions && t.sessions[sid] == k && t.store[k].tracked && !t.store[k].armed
            && Step(max, t, Lookup(next, sid)).tasks == t.tasks[next := Reading(k)]
            && t.sessions.Keys == s.sessions.Keys + {sid}
  {
    hide Reachable; hide InFlight;
    var k := s.tasks[task].key;
    var t := Step(max, s, Registered(task, sid));
    ReachableFurther(max, s, Registered(task, sid));
    TimerIffIdle(max, t, k);
    InitializerCounts(t.tasks, task);
  }

  lemma InitializerCounts(tasks: map<TaskId, Task>, t: TaskId)
    requires t in tasks && tasks[t].Initializing?
    ensures InFlight(tasks, tasks[t].key) != {}
  {
    assert t in InFlight(tasks, tasks[t].key);
  }

  /** The initialisation's end gives its place back and leaves an idle session in the table with its timer armed. */
  lemma InitEnds(max: nat, s: State, task: TaskId)
    requires Reachable(max, s) && Enabled(s, EndInit(task))
    ensures var t, k := Step(max, s, EndInit(task)), s.tasks[task].key;
            && t.pendingInitializations == s.pendingInitializations - 1 && task !in t.tasks && t.sessions == s.sessions
            && (t.store[k].armed <==> k in s.sessions.Values && InFlight(t.tasks, k) == {})
  {
    hide Reachable; hide InFlight;
    var t, k := Step(max, s, EndInit(task)), s.tasks[task].key;
    ReachableFurther(max, s, EndInit(task));
    TimerIffIdle(max, t, k);
  }

  /** A request whose body cannot be read touches no session. */
  lemma UnreadBody(max: nat, s: State, task: TaskId)
    requires Enabled(s, BodyFailed(task))
    ensures var t := Step(max, s, BodyFailed(task));
            task !in t.tasks && t.store == s.store && t.sessions == s.sessions && t.closed == s.closed
  {
  }
}
