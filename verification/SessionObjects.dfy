/** The session manager's own objects: each method changes one session and the table as the step functions of `Sessions` say. */
module SessionObjects {
  import opened Values
  import S = Sessions

  lemma NoValuesNoKeys<K>(m: map<string, K>)
    ensures m.Values == {} ==> m == map[]
  {
    assert forall i | i in m :: m[i] in m.Values;
  }

  class HttpSession {
    var activeRequests: nat
    var idleTimer: bool
    var tracked: bool
    var disposed: bool
    ghost var registered: bool

    /** A session created for an initialisation, which counts as its first request. */
    constructor ()
      ensures View() == S.NewSession()
    {
      activeRequests, idleTimer, tracked, disposed, registered := 1, false, false, false, false;
    }

    ghost function View(): S.Session
      reads this
    {
      S.Session(activeRequests, idleTimer, tracked, disposed, registered)
    }

    method BeginRequest()
      modifies this
      ensures View() == S.Begun(old(View()))
    {
      idleTimer := false;
      activeRequests := activeRequests + 1;
    }

    method ArmIdleTimer()
      modifies this
      ensures View() == S.Armed(old(View()))
    {
      if disposed || !tracked || activeRequests > 0 { return; }
      idleTimer := true;
    }

    method EndRequest()
      modifies this
      ensures View() == S.Ended(old(View()))
    {
      activeRequests := if activeRequests > 0 then activeRequests - 1 else 0;
      if activeRequests == 0 { ArmIdleTimer(); }
    }
  }

  class HttpServerState {
    const maxSessions: nat
    var sessions: map<string, HttpSession>
    var pendingInitializations: int

    constructor (maxSessions: nat)
      ensures this.maxSessions == maxSessions && sessions == map[] && pendingInitializations == 0
    {
      this.maxSessions, sessions, pendingInitializations := maxSessions, map[], 0;
    }

    method Forget(session: HttpSession)
      modifies this, session
      ensures session.View() == S.Forgotten(old(session.View())) && sessions == S.Without(old(sessions), session)
      ensures pendingInitializations == old(pendingInitializations)
    {
      session.idleTimer, session.tracked := false, false;
      var todo := sessions.Keys;
      while todo != {}
        invariant todo <= sessions.Keys && sessions.Keys <= old(sessions).Keys
        invariant forall i | i in sessions :: sessions[i] == old(sessions)[i] && (sessions[i] == session ==> i in todo)
        invariant forall i | i in old(sessions) && old(sessions)[i] != session :: i in sessions
        invariant session.View() == S.Forgotten(old(session.View())) && pendingInitializations == old(pendingInitializations)
        decreases todo
      {
        var id :| id in todo;
        todo := todo - {id};
        if sessions[id] == session { sessions := sessions - {id}; }
      }
    }

    /** Answers whether the session's server is closed now. */
    method Dispose(session: HttpSession) returns (closes: bool)
      modifies this, session
      ensures closes == !old(session.disposed) && session.View() == S.Disposed(old(session.View()))
      ensures sessions == (if closes then S.Without(old(sessions), session) else old(sessions))
      ensures pendingInitializations == old(pendingInitializations)
    {
      if session.disposed { return false; }
      session.disposed := true;
      Forget(session);
      return true;
    }

    /** An initialisation is admitted while ids and running initialisations together leave room. */
    method Admit() returns (session: HttpSession?)
      modifies this
      ensures session == null <==> |old(sessions)| + old(pendingInitializations) >= maxSessions
      ensures session != null ==> fresh(session) && session.View() == S.NewSession()
      ensures pendingInitializations == old(pendingInitializations) + if session == null then 0 else 1
      ensures sessions == old(sessions)
    {
      if |sessions| + pendingInitializations >= maxSessions { return null; }
      pendingInitializations := pendingInitializations + 1;
      session := new HttpSession();
    }

    method OnInitialized(id: string, session: HttpSession)
      modifies this, session
      ensures session.View() == S.Tracked(old(session.View())) && sessions == old(sessions)[id := session]
      ensures pendingInitializations == old(pendingInitializations)
    {
      sessions := sessions[id := session];
      session.tracked := true;
      session.registered := true;
      session.ArmIdleTimer();
    }

    /** The client closed the session with this id; an id the table does not have changes nothing. */
    method OnClosed(id: string)
      modifies this, if id in sessions then {sessions[id]} else {}
      ensures id in old(sessions) ==>
                && old(sessions[id]).View() == S.Forgotten(old(sessions[id].View()))
                && sessions == S.Without(old(sessions), old(sessions[id]))
      ensures id !in old(sessions) ==> sessions == old(sessions)
      ensures pendingInitializations == old(pendingInitializations)
    {
      if id in sessions { Forget(sessions[id]); }
    }

    method OnIdle(session: HttpSession) returns (closes: bool)
      modifies this, session
      ensures session.View() == (if old(session.activeRequests) > 0 then old(session.View()).(armed := false)
                                 else S.Disposed(old(session.View()).(armed := false)))
      ensures closes == (old(session.activeRequests) == 0 && !old(session.disposed))
      ensures sessions == if closes then S.Without(old(sessions), session) else old(sessions)
      ensures pendingInitializations == old(pendingInitializations)
    {
      session.idleTimer := false;
      if session.activeRequests > 0 { return false; }
      closes := Dispose(session);
    }

    method EndInitialization(session: HttpSession)
      modifies this, session
      ensures session.View() == S.Ended(old(session.View()))
      ensures pendingInitializations == old(pendingInitializations) - 1 && sessions == old(sessions)
    {
      session.EndRequest();
      pendingInitializations := pendingInitializations - 1;
    }

    /** Dispose of every session in the table; none of them was disposed of before. */
    method CloseSessions()
      requires forall i | i in sessions :: !sessions[i].disposed
      modifies this, sessions.Values
      ensures sessions == map[] && pendingInitializations == old(pendingInitializations)
      ensures forall x | x in old(sessions.Values) :: x.View() == S.Disposed(old(x.View()))
    {
      var all := sessions.Values;
      var todo := all;
      while todo != {}
        invariant todo <= all && sessions.Values <= todo && pendingInitializations == old(pendingInitializations)
        invariant forall x | x in all - todo :: x.View() == S.Disposed(old(x.View()))
        invariant forall x | x in todo :: x.View() == old(x.View()) && !x.disposed
        decreases todo
      {
        var x :| x in todo;
        var closes := Dispose(x);
        todo := todo - {x};
      }
      NoValuesNoKeys(sessions);
    }
  }
}
