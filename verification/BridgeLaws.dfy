/** What each call on the bridge answers and leaves behind, in terms of the call and the state it met. */
module BridgeLaws {
  import opened Values
  import opened Bridge
  import opened BridgeInvariant

  /** The lease in force at `now`. */
  ghost predicate Leased(s: State, now: nat) { s.lease.Some? && now < s.lease.value.expiresAt }

  /** A lease ends at its deadline and not before; while it runs nothing changes. */
  lemma LeaseEndsAtDeadline(s: State, now: nat)
    ensures Leased(s, now) || s.lease.None? ==> ExpireIfNeeded(s, now) == s
    ensures !Leased(s, now) ==> ExpireIfNeeded(s, now).lease.None?
  {
    hide Settle;
  }

  /** A listener is named by at most 128 bytes and at least one; leaving the name out means "default". */
  lemma ListenerNames(raw: Option<string>)
    ensures NormalizeListener(raw).Some? <==> raw.None? || 1 <= |raw.value| <= 128
    ensures NormalizeListener(raw).Some? ==> NormalizeListener(raw) == if raw.None? then Some("default") else raw
  {
    if raw.Some? { assert raw.value == "" <==> |raw.value| == 0; }
  }

  // ----- submitting -----

  /**
   * A request is accepted exactly when it names a tool, is not aborted, a listener holds the lease and there is room; it then
   * waits for the bridge's timeout, with the listener if its poll is parked, else at the end of the queue.
   */
  lemma SubmitAnswers(c: Config, s: State, id: Id, isTool: bool, isExecute: bool, aborted: bool, now: nat)
    requires Reachable(c, s)
    ensures var (t, reply) := Submit(c, s, id, isTool, isExecute, aborted, now);
            && (reply.Accepted? <==> isTool && !aborted && Leased(s, now) && |s.pending| < c.maxQueueSize)
            && (reply == SubmitError(Unavailable) <==> isTool && !aborted && !Leased(s, now))
            && (reply == SubmitError(Invalid) <==> !isTool && !aborted)
            && (reply.SubmitError? ==> t.queue == ExpireIfNeeded(s, now).queue && t.pending == ExpireIfNeeded(s, now).pending)
            && (reply.Accepted? ==>
                  && t.pending.Keys == s.pending.Keys + {id} && (forall k | k in s.pending && k != id :: t.pending[k] == s.pending[k])
                  && t.pending[id].expiresAt == now + c.timeoutMs && t.pending[id].isExecute == isExecute && !t.pending[id].executing
                  && t.issued == s.issued + [id] && t.lease == s.lease
                  && (if s.waiter.Some? then t.pending[id].phase == Delivered(s.waiter.value.listener) && t.waiter.None? && t.queue == s.queue
                      else t.pending[id].phase.Queued? && t.queue == s.queue + [id]))
  {
    hide Reachable; hide Settle; hide Record;
    ParkedPollIsHolders(c, s);
    LeaseEndsAtDeadline(s, now);
  }

  // ----- polling -----

  /** The poll may claim the lease: it is well-formed, not aborted, and no other listener holds it. */
  ghost predicate MayClaim(c: Config, s: State, raw: Option<string>, waitMs: nat, aborted: bool, now: nat) {
    && NormalizeListener(raw).Some? && waitMs <= c.maxUiWaitMs && !aborted
    && (Leased(s, now) ==> Some(s.lease.value.listener) == NormalizeListener(raw))
  }

  /**
   * A poll that may claim renews the lease and gets the oldest queued request, now its own; with an empty queue it parks if it
   * may wait. Any other poll leaves the state as expiry leaves it.
   */
  lemma NextAnswers(c: Config, s: State, raw: Option<string>, waitMs: nat, aborted: bool, token: nat, now: nat)
    requires Reachable(c, s)
    ensures var u, (t, reply) := ExpireIfNeeded(s, now), Next(c, s, raw, waitMs, aborted, token, now);
            if MayClaim(c, s, raw, waitMs, aborted, now) then
              var listener := NormalizeListener(raw).value;
              && t.lease == Some(Lease(listener, now + c.listenerTtlMs))
              && (if u.queue != [] then
                    && reply == Request(u.queue[0]) && t.queue == u.queue[1..] && t.waiter.None?
                    && u.queue[0] in t.pending && t.pending[u.queue[0]].phase == Delivered(listener)
                    && t.deliveries == u.deliveries + [(u.queue[0], listener)]
                  else if waitMs == 0 then reply == NoRequest && t.waiter.None? && t.pending == u.pending
                  else reply == Parked && t.waiter == Some(Waiter(listener, token)) && t.pending == u.pending)
            else t == u && (reply.NextError? || (aborted && reply == NoRequest))
  {
    hide Reachable; hide Settle; hide NormalizeListener;
    ParkedPollIsHolders(c, s);
    LeaseEndsAtDeadline(s, now);
    HeadIsPending(c, s, now);
  }

  lemma HeadIsPending(c: Config, s: State, now: nat)
    requires Reachable(c, s)
    ensures var u := ExpireIfNeeded(s, now); u.queue != [] ==> u.queue[0] in u.pending
  {
    hide Inv; hide Reachable;
    ReachableInv(c, s);
    ExpireIfNeededKeepsInv(c, s, now);
    if ExpireIfNeeded(s, now).queue != [] { QueueHeadIsPending(c, ExpireIfNeeded(s, now)); }
  }

  // ----- answering -----

  /** After an accepted answer the request's outcome and its entry in the history, if retained, are what the response tells. */
  lemma AnswerTells(s: State, id: Id, raw: Option<string>, response: Response, now: nat)
    requires NormalizeListener(raw).Some? && Owns(ExpireIfNeeded(s, now), id, NormalizeListener(raw).value)
    ensures var (t, reply) := Respond(s, id, raw, response, now);
            && id in t.outcomes && Tells(response, t.outcomes[id]) && id !in t.pending
            && (forall i | 0 <= i < |t.history| && t.history[i].id == id :: t.history[i].outcome == Some(t.outcomes[id]))
            && (reply == RespondError(Invalid) <==> response.ResultInvalid?) && (reply.Answered? <==> !response.ResultInvalid?)
  {
    hide ExpireIfNeeded; hide NormalizeListener; hide SettleHistory; hide Owns;
    SettleOne(ExpireIfNeeded(s, now), id, OutcomeOf(response));
  }

  // ----- approving, releasing, timers -----

  /** An execution is approved exactly when its owner asks for it the first time, with more than a second left. */
  lemma ApproveAnswers(s: State, id: Id, listener: string, now: nat)
    ensures var (t, approved) := Approve(s, id, listener, now);
            && (approved <==> id in s.pending && s.pending[id].isExecute && s.pending[id].phase == Delivered(listener)
                              && !s.pending[id].executing && now + 1000 < s.pending[id].expiresAt)
            && (approved ==> t.pending == s.pending[id := s.pending[id].(executing := true)] && t.queue == s.queue && t.lease == s.lease)
            && (!approved ==> t == s)
  {
  }

  /** Closing rejects everything that is open as unavailable and forgets listener, poll and queue. */
  lemma CloseRejectsAll(c: Config, s: State, id: Id)
    requires Reachable(c, s) && id in s.issued
    ensures var t := Close(s);
            && t.pending == map[] && t.queue == [] && t.lease.None? && t.waiter.None?
            && id in t.outcomes && t.settled[id] == 1
            && (if id in s.pending then t.outcomes[id] == Failed(Unavailable) else id in s.outcomes && t.outcomes[id] == s.outcomes[id])
  {
    hide HistoryInv; hide QueueInv; hide OrderInv; hide DeliveredInv; hide ApprovalInv; hide LeaseInv; hide Reachable;
    ReachableInv(c, s);
    assert s.pending - s.pending.Keys == map[];
    assert id in s.pending.Keys || id in s.outcomes.Keys;
    assert id in s.pending ==> id !in s.outcomes.Keys && s.settled[id] == 0;
  }

  /** Only the lease holder's release closes the bridge. */
  lemma ReleaseAnswers(s: State, listener: string)
    ensures var (t, released) := Release(s, listener);
            && (released <==> s.lease.Some? && s.lease.value.listener == listener)
            && t == if released then Close(s) else s
  {
    hide Close;
  }

  /** A timeout and an abort fail the request they belong to, each with its own code, and no other. */
  lemma TimersTell(c: Config, s: State, id: Id)
    requires Reachable(c, s) && id in s.pending
    ensures var t, a := Step(c, s, ETimeout(id)), Step(c, s, EAbort(id));
            && id in t.outcomes && t.outcomes[id] == Failed(Timeout) && id in a.outcomes && a.outcomes[id] == Failed(Refused)
            && t.pending == s.pending - {id} && a.pending == s.pending - {id} && id !in t.queue && id !in a.queue
            && (forall k | k in s.outcomes && k != id :: k in t.outcomes && t.outcomes[k] == s.outcomes[k])
  {
    hide Reachable; hide Without; hide SettleHistory;
    SettleOne(s, id, Failed(Timeout));
    SettleOne(s, id, Failed(Refused));
    DroppedFromQueue(c, s, id);
  }

  lemma DroppedFromQueue(c: Config, s: State, id: Id)
    requires Reachable(c, s) && id in s.pending
    ensures id !in Without(s.queue, id)
  {
    hide Inv; hide Reachable; hide Settle;
    ReachableInv(c, s);
    StepKeepsInv(c, s, ETimeout(id));
    StillQueued(c, Step(c, s, ETimeout(id)), id);
    DropLeaves(s, id);
  }

  lemma DropLeaves(s: State, id: Id)
    requires id in s.pending
    ensures Drop(s, id, Timeout).queue == Without(s.queue, id) && id !in Drop(s, id, Timeout).pending
  {
    hide Without;
  }

  lemma StillQueued(c: Config, s: State, id: Id)
    requires Inv(c, s)
    ensures id in s.queue ==> id in s.pending
  {
    hide HistoryInv; hide OrderInv; hide DeliveredInv; hide ApprovalInv; hide LeaseInv; hide SettleInv;
    assert id in s.queue <==> id in Undelivered(s.pending);
  }

  /** The end of a poll concerns the poll with its token only. */
  lemma UnparkAnswers(s: State, token: nat)
    ensures Unpark(s, token).waiter == if s.waiter.Some? && s.waiter.value.token == token then None else s.waiter
    ensures Unpark(s, token).(waiter := s.waiter) == s
  {
  }
}
