/**
 * The bridge as the object it is. Every method moves the abstract state by the step of the same name, so the invariant
 * proved of the steps is the object's `Valid`.
 */
module BridgeClass {
  import opened Values
  import opened Bridge
  import opened BridgeInvariant

  ghost predicate DistinctIds(h: seq<Entry>) { forall i, j | 0 <= i < j < |h| :: h[i].id != h[j].id }

  lemma HistoryIdsDistinct(h: seq<Entry>, issued: seq<Id>, unsettled: set<Id>, outcomes: map<Id, Outcome>)
    requires HistoryInv(h, issued, unsettled, outcomes) && NoDuplicates(issued)
    ensures DistinctIds(h)
  {
    hide EntryTells;
    forall i, j | 0 <= i < j < |h| ensures h[i].id != h[j].id {
      var base := |issued| - |h|;
      assert h[i].id == issued[base + i] && h[j].id == issued[base + j];
    }
  }

  lemma ValidHistoryDistinct(c: Config, s: State)
    requires Inv(c, s)
    ensures DistinctIds(s.history)
  {
    hide HistoryInv; hide QueueInv; hide OrderInv; hide DeliveredInv; hide ApprovalInv;
    HistoryIdsDistinct(s.history, s.issued, s.pending.Keys, s.outcomes);
  }

  /** History, settlement counts and outcomes after the promises of `done` were settled, starting from those of `s`. */
  ghost predicate SettledSoFar(s: State, done: set<Id>, o: Outcome, h: seq<Entry>, n: multiset<Id>, m: map<Id, Outcome>) {
    h == SettleHistory(s.history, done, o) && n == s.settled + multiset(done) && m == s.outcomes + Each(done, o)
  }

  lemma SameStart(s: State, t: State, done: set<Id>, o: Outcome, h: seq<Entry>, n: multiset<Id>, m: map<Id, Outcome>)
    requires SettledSoFar(s, done, o, h, n, m) && t.history == s.history && t.settled == s.settled && t.outcomes == s.outcomes
    ensures SettledSoFar(t, done, o, h, n, m)
  {
  }

  lemma NothingSettled(s: State, o: Outcome)
    ensures SettledSoFar(s, {}, o, s.history, s.settled, s.outcomes)
  {
    assert SettleHistory(s.history, {}, o) == s.history && s.outcomes + Each({}, o) == s.outcomes;
  }

  lemma SettleMore(h: seq<Entry>, done: set<Id>, id: Id, o: Outcome)
    ensures SettleHistory(SettleHistory(h, done, o), {id}, o) == SettleHistory(h, done + {id}, o)
  {
  }

  lemma EachMore(m: map<Id, Outcome>, done: set<Id>, id: Id, o: Outcome)
    ensures (m + Each(done, o))[id := o] == m + Each(done + {id}, o)
  {
  }

  lemma CountMore(done: set<Id>, id: Id)
    requires id !in done
    ensures multiset(done + {id}) == multiset(done) + multiset{id}
  {
  }

  lemma OneMoreSettled(s: State, done: set<Id>, o: Outcome, h: seq<Entry>, n: multiset<Id>, m: map<Id, Outcome>, id: Id)
    requires SettledSoFar(s, done, o, h, n, m) && id !in done
    ensures SettledSoFar(s, done + {id}, o, SettleHistory(h, {id}, o), n + multiset{id}, m[id := o])
  {
    hide SettleHistory; hide Each;
    SettleMore(s.history, done, id, o);
    EachMore(s.outcomes, done, id, o);
    CountMore(done, id);
  }

  lemma AllSettled(s: State, ids: set<Id>, o: Outcome, h: seq<Entry>, n: multiset<Id>, m: map<Id, Outcome>)
    requires SettledSoFar(s, ids, o, h, n, m)
    ensures Settle(s, ids, o) == s.(pending := s.pending - ids, settled := n, outcomes := m, history := h)
  {
    hide SettleHistory; hide Each;
  }

  /** What closing leaves, once the promises of all pending requests were settled. */
  lemma ClosedState(s: State, h: seq<Entry>, n: multiset<Id>, m: map<Id, Outcome>)
    requires SettledSoFar(s.(waiter := None), s.pending.Keys, Failed(Unavailable), h, n, m)
    ensures Bridge.Close(s)
            == s.(pending := map[], queue := [], lease := None, waiter := None, history := h, settled := n, outcomes := m)
  {
    hide Settle; hide SettledSoFar;
    SameStart(s.(waiter := None), s, s.pending.Keys, Failed(Unavailable), h, n, m);
    AllSettled(s, s.pending.Keys, Failed(Unavailable), h, n, m);
    assert s.pending - s.pending.Keys == map[];
  }

  /** The expiry loop visits one more pending request. */
  lemma VisitOne(all: map<Id, Pending>, todo: set<Id>, done: set<Id>, id: Id)
    requires id in todo && todo <= all.Keys && done == Undelivered(all) - todo
    ensures id in all && id !in done && (all - done)[id] == all[id] && (id in Undelivered(all) <==> all[id].phase.Queued?)
    ensures all[id].phase.Queued? ==> done + {id} == Undelivered(all) - (todo - {id})
    ensures all[id].phase.Queued? ==> (all - done) - {id} == all - (done + {id})
    ensures all[id].phase.Delivered? ==> done == Undelivered(all) - (todo - {id})
    ensures todo - {id} <= (all - done).Keys && todo - {id} <= (all - (done + {id})).Keys
  {
  }

  lemma UndeliveredPending(all: map<Id, Pending>)
    ensures Undelivered(all) - all.Keys == {} && all - {} == all
  {
  }

  lemma OutcomeTells(response: Response)
    ensures Tells(response, OutcomeOf(response))
  {
  }

  class McpBridge {
    const config: Config
    var queue: seq<Id>
    var pending: map<Id, Pending>
    var historyEntries: seq<Entry>
    var listenerId: Option<string>
    var listenerExpiresAt: nat
    var waitingListener: Option<Waiter>
    ghost var issued: seq<Id>
    ghost var settled: multiset<Id>
    ghost var outcomes: map<Id, Outcome>
    ghost var deliveries: seq<(Id, string)>
    ghost var approvals: seq<Approval>

    ghost function View(): State
      reads this
    {
      State(queue, pending, historyEntries, if listenerId.Some? then Some(Lease(listenerId.value, listenerExpiresAt)) else None,
            waitingListener, issued, settled, outcomes, deliveries, approvals)
    }

    ghost predicate Valid()
      reads this
    {
      Inv(config, View())
    }

    constructor (config: Config)
      ensures this.config == config && View() == Init() && Valid()
    {
      this.config := config;
      queue, pending, historyEntries := [], map[], [];
      listenerId, listenerExpiresAt, waitingListener := None, 0, None;
      issued, settled, outcomes, deliveries, approvals := [], multiset{}, map[], [], [];
    }

    /** Settle one promise and mark the first history entry with its id. */
    method SettlePromise(id: Id, o: Outcome)
      requires DistinctIds(historyEntries)
      modifies `historyEntries, `settled, `outcomes
      ensures historyEntries == SettleHistory(old(historyEntries), {id}, o)
      ensures settled == old(settled) + multiset{id} && outcomes == old(outcomes)[id := o]
      ensures DistinctIds(historyEntries)
    {
      settled, outcomes := settled + multiset{id}, outcomes[id := o];
      var i := 0;
      while i < |historyEntries| && historyEntries[i].id != id
        invariant 0 <= i <= |historyEntries| && historyEntries == old(historyEntries)
        invariant forall j | 0 <= j < i :: historyEntries[j].id != id
      {
        i := i + 1;
      }
      if i < |historyEntries| {
        historyEntries := historyEntries[i := Entry(id, Some(o))];
      }
    }

    /** The loop of `expireListener`: reject and remove what was not delivered. */
    method RejectUndelivered()
      requires DistinctIds(historyEntries)
      modifies `pending, `historyEntries, `settled, `outcomes
      ensures pending == old(pending) - Undelivered(old(pending)) && DistinctIds(historyEntries)
      ensures SettledSoFar(old(View()), Undelivered(old(pending)), Failed(Unavailable), historyEntries, settled, outcomes)
    {
      hide DistinctIds; hide SettledSoFar; hide SettleHistory; hide Undelivered;
      ghost var s := View();
      NothingSettled(s, Failed(Unavailable));
      UndeliveredPending(s.pending);
      var todo := pending.Keys;
      ghost var done: set<Id> := {};
      while todo != {}
        invariant todo <= pending.Keys && done == Undelivered(s.pending) - todo && pending == s.pending - done
        invariant DistinctIds(historyEntries) && SettledSoFar(s, done, Failed(Unavailable), historyEntries, settled, outcomes)
        decreases todo
      {
        var id :| id in todo;
        VisitOne(s.pending, todo, done, id);
        todo := todo - {id};
        if pending[id].phase.Queued? {
          OneMoreSettled(s, done, Failed(Unavailable), historyEntries, settled, outcomes, id);
          SettlePromise(id, Failed(Unavailable));
          pending := pending - {id};
          done := done + {id};
        }
      }
      assert done == Undelivered(s.pending);
    }

    /** Give up the lease: undelivered requests are rejected, delivered ones stay pending. */
    method ExpireListener()
      requires DistinctIds(historyEntries)
      modifies this
      ensures View() == Expire(old(View()))
      ensures DistinctIds(historyEntries)
    {
      hide DistinctIds; hide SettledSoFar; hide Settle; hide SettleHistory; hide Undelivered;
      RejectUndelivered();
      AllSettled(old(View()), Undelivered(old(pending)), Failed(Unavailable), historyEntries, settled, outcomes);
      listenerId, listenerExpiresAt, waitingListener := None, 0, None;
      queue := [];
    }

    method ExpireListenerIfNeeded(now: nat)
      requires Valid()
      modifies this
      ensures View() == ExpireIfNeeded(old(View()), now) && Valid()
    {
      hide Inv; hide Expire; hide DistinctIds;
      ValidHistoryDistinct(config, View());
      ExpireIfNeededKeepsInv(config, View(), now);
      if listenerId.Some? && now >= listenerExpiresAt {
        ExpireListener();
      }
    }

    /** The loop of `close`: reject every pending request. */
    method RejectAll()
      requires DistinctIds(historyEntries)
      modifies `historyEntries, `settled, `outcomes
      ensures DistinctIds(historyEntries)
      ensures SettledSoFar(old(View()), pending.Keys, Failed(Unavailable), historyEntries, settled, outcomes)
    {
      hide DistinctIds; hide SettledSoFar; hide SettleHistory;
      ghost var s := View();
      NothingSettled(s, Failed(Unavailable));
      var todo := pending.Keys;
      ghost var done: set<Id> := {};
      while todo != {}
        invariant todo <= pending.Keys && done == pending.Keys - todo
        invariant DistinctIds(historyEntries) && SettledSoFar(s, done, Failed(Unavailable), historyEntries, settled, outcomes)
        decreases todo
      {
        var id :| id in todo;
        todo := todo - {id};
        OneMoreSettled(s, done, Failed(Unavailable), historyEntries, settled, outcomes, id);
        SettlePromise(id, Failed(Unavailable));
        done := done + {id};
      }
      assert done == pending.Keys;
    }

    method Close()
      requires Valid()
      modifies this
      ensures View() == Bridge.Close(old(View())) && Valid()
    {
      hide Inv; hide DistinctIds; hide Bridge.Close; hide SettledSoFar;
      ValidHistoryDistinct(config, View());
      CloseKeepsInv(config, View());
      ghost var s := View();
      waitingListener := None;
      RejectAll();
      ClosedState(s, historyEntries, settled, outcomes);
      pending, queue := map[], [];
      listenerId, listenerExpiresAt := None, 0;
    }

    method Next(raw: Option<string>, waitMs: nat, aborted: bool, token: nat, now: nat) returns (reply: NextReply)
      requires Valid()
      modifies this
      ensures (View(), reply) == Bridge.Next(config, old(View()), raw, waitMs, aborted, token, now) && Valid()
    {
      hide Inv; hide ExpireIfNeeded; hide NormalizeListener;
      NextKeepsInv(config, View(), raw, waitMs, aborted, token, now);
      ExpireListenerIfNeeded(now);
      var listener := NormalizeListener(raw);
      if listener.None? || waitMs > config.maxUiWaitMs { return NextError(Invalid); }
      if aborted { return NoRequest; }
      var claimed := ClaimListener(listener.value, now);
      if !claimed { return NextError(Refused); }
      if waitingListener.Some? {
        if waitingListener.value.listener != listener.value { return NextError(Refused); }
        waitingListener := None;
      }
      if queue != [] {
        var id := queue[0];
        queue := queue[1..];
        if id in pending { pending := pending[id := pending[id].(phase := Delivered(listener.value))]; }
        deliveries := deliveries + [(id, listener.value)];
        return Request(id);
      }
      if waitMs == 0 { return NoRequest; }
      waitingListener := Some(Waiter(listener.value, token));
      return Parked;
    }

    method ClaimListener(listener: string, now: nat) returns (claimed: bool)
      modifies `listenerId, `listenerExpiresAt
      ensures claimed <==> old(listenerId) == None || old(listenerId) == Some(listener)
      ensures if claimed then listenerId == Some(listener) && listenerExpiresAt == now + config.listenerTtlMs
              else listenerId == old(listenerId) && listenerExpiresAt == old(listenerExpiresAt)
    {
      if listenerId.Some? && listenerId.value != listener { return false; }
      listenerId, listenerExpiresAt := Some(listener), now + config.listenerTtlMs;
      return true;
    }

    method Submit(id: Id, isTool: bool, isExecute: bool, aborted: bool, now: nat) returns (reply: SubmitReply)
      requires Valid() && id !in issued
      modifies this
      ensures (View(), reply) == Bridge.Submit(config, old(View()), id, isTool, isExecute, aborted, now) && Valid()
    {
      hide Inv; hide ExpireIfNeeded; hide Accept;
      SubmitKeepsInv(config, View(), id, isTool, isExecute, aborted, now);
      ExpireListenerIfNeeded(now);
      if aborted { return SubmitError(Refused); }
      if !isTool { return SubmitError(Invalid); }
      if listenerId.None? { return SubmitError(Unavailable); }
      if |pending| >= config.maxQueueSize { return SubmitError(Refused); }
      Enqueue(id, isExecute, now);
      return Accepted;
    }

    /** Record the request, then hand it to the listener's parked poll or put it into the queue. */
    method Enqueue(id: Id, isExecute: bool, now: nat)
      requires listenerId.Some?
      modifies this
      ensures View() == Accept(config, old(View()), id, isExecute, now)
    {
      hide Record;
      var request := Pending(isExecute, now + config.timeoutMs, Queued, false);
      ghost var claimed := pending;
      pending, issued := pending[id := request], issued + [id];
      RecordHistory(id);
      if waitingListener.Some? && waitingListener.value.listener == listenerId.value {
        waitingListener := None;
        assert pending[id := request.(phase := Delivered(listenerId.value))]
            == claimed[id := request.(phase := Delivered(listenerId.value))];
        pending := pending[id := request.(phase := Delivered(listenerId.value))];
        deliveries := deliveries + [(id, listenerId.value)];
      } else {
        queue := queue + [id];
      }
    }

    method RecordHistory(id: Id)
      modifies `historyEntries
      ensures historyEntries == Record(old(historyEntries), id)
    {
      historyEntries := historyEntries + [Entry(id, None)];
      if |historyEntries| > MAX_HISTORY_ENTRIES { historyEntries := historyEntries[1..]; }
    }

    method Respond(id: Id, raw: Option<string>, response: Response, now: nat) returns (reply: RespondReply)
      requires Valid()
      modifies this
      ensures (View(), reply) == Bridge.Respond(old(View()), id, raw, response, now) && Valid()
      ensures reply.Answered? ==> id in outcomes && Tells(response, outcomes[id]) && id !in pending
    {
      hide Inv; hide ExpireIfNeeded; hide Settle; hide NormalizeListener; hide OutcomeOf; hide DistinctIds; hide Tells;
      RespondKeepsInv(config, View(), id, raw, response, now);
      OutcomeTells(response);
      ExpireListenerIfNeeded(now);
      ValidHistoryDistinct(config, View());
      var listener := NormalizeListener(raw);
      if listener.None? { return RespondError(Invalid); }
      if id !in pending || pending[id].phase != Delivered(listener.value) { return RespondError(Stale); }
      SettleOne(View(), id, OutcomeOf(response));
      pending := pending - {id};
      SettlePromise(id, OutcomeOf(response));
      return if response.ResultInvalid? then RespondError(Invalid) else Answered;
    }

    method ApproveExecution(id: Id, listener: string, now: nat) returns (approved: bool)
      requires Valid()
      modifies this
      ensures (View(), approved) == Approve(old(View()), id, listener, now) && Valid()
    {
      hide Inv;
      ApproveKeepsInv(config, View(), id, listener, now);
      if id !in pending || !pending[id].isExecute || pending[id].phase != Delivered(listener) || pending[id].executing
         || pending[id].expiresAt <= now + APPROVAL_MARGIN_MS {
        return false;
      }
      approvals := approvals + [Approval(id, listener, now, pending[id].expiresAt)];
      pending := pending[id := pending[id].(executing := true)];
      return true;
    }

    method Release(listener: string) returns (released: bool)
      requires Valid()
      modifies this
      ensures (View(), released) == Bridge.Release(old(View()), listener) && Valid()
    {
      hide Inv; hide Bridge.Close;
      if listenerId != Some(listener) { return false; }
      Close();
      return true;
    }

    /** The status counters: what is queued and what is in flight are together all pending requests. */
    method Status(now: nat) returns (uiConnected: bool, queueSize: nat, inFlight: nat)
      requires Valid()
      modifies this
      ensures View() == ExpireIfNeeded(old(View()), now) && Valid()
      ensures uiConnected == listenerId.Some? && queueSize == |queue| && inFlight == |InFlight(pending)|
      ensures queueSize + inFlight == |pending| <= config.maxQueueSize
    {
      hide Inv; hide ExpireIfNeeded; hide InFlight;
      ExpireListenerIfNeeded(now);
      StatusCounts(config, View());
      return listenerId.Some?, |queue|, |InFlight(pending)|;
    }

    /** The callbacks of a request's timer and abort signal. */
    method OnTimeout(id: Id)
      requires Valid()
      modifies this
      ensures View() == Drop(old(View()), id, Timeout) && Valid()
    {
      hide Inv; hide Drop;
      DropRequest(id, Timeout);
    }

    method OnAbort(id: Id)
      requires Valid()
      modifies this
      ensures View() == Drop(old(View()), id, Refused) && Valid()
    {
      hide Inv; hide Drop;
      DropRequest(id, Refused);
    }

    method DropRequest(id: Id, code: ErrorCode)
      requires Valid() && (code == Timeout || code == Refused)
      modifies this
      ensures View() == Drop(old(View()), id, code) && Valid()
    {
      hide Inv; hide Settle; hide SettleHistory; hide DistinctIds;
      DropKeepsInv(config, View(), id, code);
      ValidHistoryDistinct(config, View());
      if id !in pending { return; }
      SettleOne(View(), id, Failed(code));
      pending := pending - {id};
      var k := PositionOf(queue, id);
      if k < |queue| { queue := queue[..k] + queue[k + 1..]; }
      SettlePromise(id, Failed(code));
    }

    /** The callbacks of a parked poll's timer and abort signal. */
    method OnPollEnd(token: nat)
      requires Valid()
      modifies this
      ensures View() == Unpark(old(View()), token) && Valid()
    {
      hide Inv;
      UnparkKeepsInv(config, View(), token);
      if waitingListener.Some? && waitingListener.value.token == token { waitingListener := None; }
    }

    method OnLeaseTimer()
      requires Valid()
      modifies this
      ensures View() == Expire(old(View())) && Valid()
    {
      hide Inv; hide Expire; hide DistinctIds;
      ValidHistoryDistinct(config, View());
      ExpireKeepsInv(config, View());
      ExpireListener();
    }
  }
}
