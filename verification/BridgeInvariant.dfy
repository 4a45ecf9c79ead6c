/** The bridge's invariant holds in every reachable state, and what follows from it. */
module BridgeInvariant {
  import opened Values
  import opened Bridge

  // ----- order of issue -----

  lemma {:induction false} PositionAfterAppend(issued: seq<Id>, x: Id, id: Id)
    requires id in issued
    ensures PositionOf(issued + [x], id) == PositionOf(issued, id)
  {
    if issued[0] != id {
      assert (issued + [x])[1..] == issued[1..] + [x];
      PositionAfterAppend(issued[1..], x, id);
    }
  }

  lemma {:induction false} PositionOfNew(issued: seq<Id>, x: Id)
    requires x !in issued
    ensures PositionOf(issued + [x], x) == |issued|
  {
    if issued != [] {
      assert (issued + [x])[1..] == issued[1..] + [x];
      PositionOfNew(issued[1..], x);
    }
  }

  lemma OrderAfterIssue(q: seq<Id>, issued: seq<Id>, x: Id)
    requires InIssueOrder(q, issued) && x !in issued && forall i | 0 <= i < |q| :: q[i] in issued
    ensures InIssueOrder(q, issued + [x]) && InIssueOrder(q + [x], issued + [x])
  {
    PositionOfNew(issued, x);
    forall i | 0 <= i < |q| ensures PositionOf(issued + [x], q[i]) == PositionOf(issued, q[i]) < |issued| { PositionAfterAppend(issued, x, q[i]); }
  }

  lemma WithoutMembers(q: seq<Id>, id: Id)
    requires forall i, j | 0 <= i < j < |q| :: q[i] != q[j]
    ensures forall k :: k in Without(q, id) <==> k in q && k != id
  {
    var n := PositionOf(q, id);
    if n < |q| {
      assert q == q[..n] + [id] + q[n + 1..];
      assert forall j | n + 1 <= j < |q| :: q[j] != q[n];
    }
  }

  lemma WithoutKeepsOrder(p: seq<Id>, q: seq<Id>, id: Id, issued: seq<Id>)
    requires InIssueOrder(p + q, issued)
    ensures InIssueOrder(p + Without(q, id), issued)
  {
    var k := PositionOf(q, id);
    var all, rest := p + q, p + Without(q, id);
    if k < |q| {
      forall i, j | 0 <= i < j < |rest| ensures PositionOf(issued, rest[i]) < PositionOf(issued, rest[j]) {
        var i' := if i < |p| + k then i else i + 1;
        var j' := if j < |p| + k then j else j + 1;
        assert rest[i] == all[i'] && rest[j] == all[j'];
      }
    }
  }

  lemma OrderedDistinct(q: seq<Id>, issued: seq<Id>)
    requires InIssueOrder(q, issued)
    ensures forall i, j | 0 <= i < j < |q| :: q[i] != q[j]
  {
  }

  lemma PrefixOrder(p: seq<Id>, q: seq<Id>, issued: seq<Id>)
    requires InIssueOrder(p + q, issued)
    ensures InIssueOrder(p, issued) && InIssueOrder(q, issued) && InIssueOrder(p + [], issued)
  {
    var all := p + q;
    forall i, j | 0 <= i < j < |p| ensures PositionOf(issued, p[i]) < PositionOf(issued, p[j]) { assert all[i] == p[i] && all[j] == p[j]; }
    forall i, j | 0 <= i < j < |q| ensures PositionOf(issued, q[i]) < PositionOf(issued, q[j]) {
      assert all[|p| + i] == q[i] && all[|p| + j] == q[j];
    }
    assert p + [] == p;
  }

  lemma OrderOfQueue(d: seq<(Id, string)>, queue: seq<Id>, issued: seq<Id>)
    requires OrderInv(d, queue, issued)
    ensures OrderInv(d, [], issued) && InIssueOrder(queue, issued) && forall i, j | 0 <= i < j < |queue| :: queue[i] != queue[j]
  {
    PrefixOrder(DeliveredIds(d), queue, issued);
    OrderedDistinct(queue, issued);
  }

  lemma DeliveredStill(d: seq<(Id, string)>, d': seq<(Id, string)>, k: Id)
    requires WasDelivered(d, k) && d <= d'
    ensures WasDelivered(d', k)
  {
    var i :| 0 <= i < |d| && d[i].0 == k;
    assert d'[i].0 == k;
  }

  // ----- settling -----

  lemma SettleKeepsSettleInv(issued: seq<Id>, unsettled: set<Id>, settled: multiset<Id>, done: set<Id>, ids: set<Id>)
    requires SettleInv(issued, unsettled, settled, done) && ids <= unsettled
    ensures SettleInv(issued, unsettled - ids, settled + multiset(ids), done + ids)
  {
  }

  lemma SettleKeepsHistoryInv(h: seq<Entry>, issued: seq<Id>, unsettled: set<Id>, outcomes: map<Id, Outcome>, ids: set<Id>, o: Outcome)
    requires HistoryInv(h, issued, unsettled, outcomes) && ids <= unsettled
    ensures HistoryInv(SettleHistory(h, ids, o), issued, unsettled - ids, outcomes + Each(ids, o))
  {
    var h', outcomes' := SettleHistory(h, ids, o), outcomes + Each(ids, o);
    forall i | 0 <= i < |h'| ensures EntryTells(h'[i], unsettled - ids, outcomes') { assert EntryTells(h[i], unsettled, outcomes); }
  }

  lemma SettleKeepsDeliveredInv(d: seq<(Id, string)>, pending: map<Id, Pending>, outcomes: map<Id, Outcome>, ids: set<Id>, o: Outcome)
    requires DeliveredInv(d, pending, outcomes) && ids <= pending.Keys
    requires Undeliverable(o) || forall k | k in ids :: pending[k].phase.Delivered?
    ensures DeliveredInv(d, pending - ids, outcomes + Each(ids, o))
  {
  }

  lemma SettleKeepsApprovalInv(approvals: seq<Approval>, d: seq<(Id, string)>, pending: map<Id, Pending>, ids: set<Id>)
    requires ApprovalInv(approvals, d, pending)
    ensures ApprovalInv(approvals, d, pending - ids)
  {
  }

  lemma SmallerMap(m: map<Id, Pending>, ids: set<Id>)
    ensures |m - ids| <= |m| && (m - ids).Keys == m.Keys - ids
  {
    SubsetSize(m.Keys - ids, m.Keys);
  }

  /** Settling `ids`, whatever happens to queue, lease and waiter as long as they keep their own parts. */
  lemma SettleKeepsInv(c: Config, s: State, ids: set<Id>, o: Outcome, t: State)
    requires Inv(c, s) && ids <= s.pending.Keys
    requires Undeliverable(o) || forall k | k in ids :: s.pending[k].phase.Delivered?
    requires t == Settle(s, ids, o).(queue := t.queue, lease := t.lease, waiter := t.waiter)
    requires QueueInv(t.queue, Undelivered(t.pending)) && LeaseInv(t.queue, t.lease, t.waiter)
    requires OrderInv(s.deliveries, t.queue, s.issued)
    ensures Inv(c, t)
  {
    hide QueueInv; hide SettleInv; hide HistoryInv; hide LeaseInv; hide OrderInv; hide DeliveredInv; hide ApprovalInv; hide SettleHistory;
    hide Undelivered; hide Each;
    SettleKeepsSettleInv(s.issued, s.pending.Keys, s.settled, s.outcomes.Keys, ids);
    SettleKeepsHistoryInv(s.history, s.issued, s.pending.Keys, s.outcomes, ids, o);
    SettleKeepsDeliveredInv(s.deliveries, s.pending, s.outcomes, ids, o);
    SettleKeepsApprovalInv(s.approvals, s.deliveries, s.pending, ids);
    SmallerMap(s.pending, ids);
    assert t.outcomes.Keys == s.outcomes.Keys + ids;
  }

  lemma EmptyQueue(pending: map<Id, Pending>, ids: set<Id>)
    requires Undelivered(pending) <= ids
    ensures QueueInv([], Undelivered(pending - ids))
  {
  }

  lemma ExpireKeepsInv(c: Config, s: State)
    requires Inv(c, s)
    ensures Inv(c, Expire(s))
  {
    hide SettleInv; hide HistoryInv; hide OrderInv; hide DeliveredInv; hide ApprovalInv;
    EmptyQueue(s.pending, Undelivered(s.pending));
    OrderOfQueue(s.deliveries, s.queue, s.issued);
    SettleKeepsInv(c, s, Undelivered(s.pending), Failed(Unavailable), Expire(s));
  }

  lemma CloseKeepsInv(c: Config, s: State)
    requires Inv(c, s)
    ensures Inv(c, Close(s))
  {
    hide SettleInv; hide HistoryInv; hide OrderInv; hide DeliveredInv; hide ApprovalInv;
    EmptyQueue(s.pending, s.pending.Keys);
    OrderOfQueue(s.deliveries, s.queue, s.issued);
    SettleKeepsInv(c, s, s.pending.Keys, Failed(Unavailable), Close(s));
  }

  lemma ExpireIfNeededKeepsInv(c: Config, s: State, now: nat)
    requires Inv(c, s)
    ensures Inv(c, ExpireIfNeeded(s, now))
  {
    hide Inv;
    ExpireKeepsInv(c, s);
  }

  lemma SettleOneQueue(queue: seq<Id>, pending: map<Id, Pending>, id: Id)
    requires QueueInv(queue, Undelivered(pending)) && forall i, j | 0 <= i < j < |queue| :: queue[i] != queue[j]
    ensures QueueInv(Without(queue, id), Undelivered(pending - {id}))
    ensures queue == [] ==> Without(queue, id) == []
    ensures id !in Undelivered(pending) ==> Without(queue, id) == queue
  {
    WithoutMembers(queue, id);
  }

  /** Settling one pending request and taking it out of the queue. */
  lemma SettleOneKeepsInv(c: Config, s: State, id: Id, o: Outcome)
    requires Inv(c, s) && id in s.pending
    requires Undeliverable(o) || s.pending[id].phase.Delivered?
    ensures Inv(c, Settle(s, {id}, o).(queue := Without(s.queue, id)))
  {
    var t := Settle(s, {id}, o).(queue := Without(s.queue, id));
    hide QueueInv; hide SettleInv; hide HistoryInv; hide DeliveredInv; hide ApprovalInv; hide InIssueOrder;
    OrderOfQueue(s.deliveries, s.queue, s.issued);
    SettleOneQueue(s.queue, s.pending, id);
    WithoutKeepsOrder(DeliveredIds(s.deliveries), s.queue, id, s.issued);
    assert LeaseInv(t.queue, t.lease, t.waiter);
    SettleKeepsInv(c, s, {id}, o, t);
  }

  lemma DropKeepsInv(c: Config, s: State, id: Id, code: ErrorCode)
    requires Inv(c, s) && (code == Timeout || code == Refused)
    ensures Inv(c, Drop(s, id, code))
  {
    hide Inv;
    if id in s.pending { SettleOneKeepsInv(c, s, id, Failed(code)); }
  }

  lemma RespondKeepsInv(c: Config, s0: State, id: Id, raw: Option<string>, response: Response, now: nat)
    requires Inv(c, s0)
    ensures Inv(c, Respond(s0, id, raw, response, now).0)
  {
    ExpireIfNeededKeepsInv(c, s0, now);
    var s := ExpireIfNeeded(s0, now);
    hide SettleInv; hide HistoryInv; hide DeliveredInv; hide ApprovalInv; hide InIssueOrder; hide QueueInv;
    if NormalizeListener(raw).Some? && Owns(s, id, NormalizeListener(raw).value) {
      OrderOfQueue(s.deliveries, s.queue, s.issued);
      SettleOneQueue(s.queue, s.pending, id);
      SettleOneKeepsInv(c, s, id, OutcomeOf(response));
    }
  }

  // ----- steps that settle nothing -----

  /** A pending request's fields may change without changing who is pending. */
  lemma SameKeys(pending: map<Id, Pending>, pending': map<Id, Pending>)
    requires pending'.Keys == pending.Keys
    ensures |pending'| == |pending|
  {
    assert |pending'| == |pending'.Keys| && |pending| == |pending.Keys|;
  }

  lemma ApproveKeepsDelivered(d: seq<(Id, string)>, pending: map<Id, Pending>, outcomes: map<Id, Outcome>, id: Id)
    requires DeliveredInv(d, pending, outcomes) && id in pending
    ensures DeliveredInv(d, pending[id := pending[id].(executing := true)], outcomes)
    ensures Undelivered(pending[id := pending[id].(executing := true)]) == Undelivered(pending)
  {
  }

  lemma ApproveKeepsApprovals(approvals: seq<Approval>, d: seq<(Id, string)>, pending: map<Id, Pending>, id: Id, listener: string, now: nat)
    requires ApprovalInv(approvals, d, pending) && id in pending && (id, listener) in d
    requires !pending[id].executing && pending[id].expiresAt > now + APPROVAL_MARGIN_MS
    ensures ApprovalInv(approvals + [Approval(id, listener, now, pending[id].expiresAt)], d, pending[id := pending[id].(executing := true)])
  {
  }

  lemma OwnerWasGiven(d: seq<(Id, string)>, pending: map<Id, Pending>, outcomes: map<Id, Outcome>, id: Id, listener: string)
    requires DeliveredInv(d, pending, outcomes) && id in pending && pending[id].phase == Delivered(listener)
    ensures (id, listener) in d
  {
    assert WasDelivered(d, id);
    var i :| 0 <= i < |d| && d[i].0 == id;
    assert d[i] == (id, listener);
  }

  lemma ApproveKeepsInv(c: Config, s: State, id: Id, listener: string, now: nat)
    requires Inv(c, s)
    ensures Inv(c, Approve(s, id, listener, now).0)
  {
    hide QueueInv; hide SettleInv; hide HistoryInv; hide LeaseInv; hide OrderInv; hide DeliveredInv; hide ApprovalInv;
    if CanApprove(s, id, listener, now) {
      var t := Approve(s, id, listener, now).0;
      assert t.pending.Keys == s.pending.Keys;
      SameKeys(s.pending, t.pending);
      OwnerWasGiven(s.deliveries, s.pending, s.outcomes, id, listener);
      ApproveKeepsDelivered(s.deliveries, s.pending, s.outcomes, id);
      ApproveKeepsApprovals(s.approvals, s.deliveries, s.pending, id, listener, now);
    }
  }

  lemma ReleaseKeepsInv(c: Config, s: State, listener: string)
    requires Inv(c, s)
    ensures Inv(c, Release(s, listener).0)
  {
    hide Inv;
    CloseKeepsInv(c, s);
  }

  lemma UnparkKeepsInv(c: Config, s: State, token: nat)
    requires Inv(c, s)
    ensures Inv(c, Unpark(s, token))
  {
    hide QueueInv; hide SettleInv; hide HistoryInv; hide OrderInv; hide DeliveredInv; hide ApprovalInv;
  }

  /** The pending map after `id` went to `listener`. */
  function Given(pending: map<Id, Pending>, id: Id, listener: string): map<Id, Pending>
    requires id in pending
  {
    pending[id := pending[id].(phase := Delivered(listener))]
  }

  lemma TakeKeepsQueue(queue: seq<Id>, pending: map<Id, Pending>, listener: string)
    requires queue != [] && QueueInv(queue, Undelivered(pending)) && queue[0] in pending
    requires forall i, j | 0 <= i < j < |queue| :: queue[i] != queue[j]
    ensures QueueInv(queue[1..], Undelivered(Given(pending, queue[0], listener)))
  {
    var rest, left := queue[1..], Undelivered(Given(pending, queue[0], listener));
    assert queue == [queue[0]] + rest;
    forall k ensures k in rest <==> k in left {
      assert k in queue <==> k in Undelivered(pending);
      if k in rest { var j :| 0 <= j < |rest| && rest[j] == k; assert queue[j + 1] == k != queue[0]; }
    }
  }

  lemma TakeKeepsOrder(d: seq<(Id, string)>, queue: seq<Id>, issued: seq<Id>, listener: string)
    requires queue != [] && queue[0] in issued && OrderInv(d, queue, issued)
    ensures OrderInv(d + [(queue[0], listener)], queue[1..], issued)
  {
    assert DeliveredIds(d + [(queue[0], listener)]) + queue[1..] == DeliveredIds(d) + queue;
  }

  /** Handing `id` over: it was not delivered before, being still queued or new. */
  lemma GiveKeepsDelivered(d: seq<(Id, string)>, pending: map<Id, Pending>, outcomes: map<Id, Outcome>, id: Id, p: Pending, listener: string)
    requires DeliveredInv(d, pending, outcomes) && p.phase == Delivered(listener)
    requires if id in pending then pending[id].phase.Queued? else !WasDelivered(d, id)
    ensures DeliveredInv(d + [(id, listener)], pending[id := p], outcomes)
  {
    var d', pending' := d + [(id, listener)], pending[id := p];
    forall i | 0 <= i < |d'| && d'[i].0 in pending' ensures pending'[d'[i].0].phase == Delivered(d'[i].1) {
      if i < |d| { assert WasDelivered(d, d[i].0); }
    }
    forall k | k in pending' && pending'[k].phase.Delivered? ensures WasDelivered(d', k) {
      if k == id { assert d'[|d|].0 == id; } else { DeliveredStill(d, d', k); }
    }
    forall k | k in outcomes && !WasDelivered(d', k) ensures Undeliverable(outcomes[k]) {
      if WasDelivered(d, k) { DeliveredStill(d, d', k); }
    }
  }

  lemma GiveKeepsApprovals(approvals: seq<Approval>, d: seq<(Id, string)>, pending: map<Id, Pending>, id: Id, p: Pending, listener: string)
    requires ApprovalInv(approvals, d, pending)
    requires if id in pending then p.executing == pending[id].executing else !WasDelivered(d, id)
    ensures ApprovalInv(approvals, d + [(id, listener)], pending[id := p])
  {
    forall i | 0 <= i < |approvals| ensures WasDelivered(d, approvals[i].id) {
      var j :| 0 <= j < |d| && d[j] == (approvals[i].id, approvals[i].owner);
    }
  }

  /** Handing the head of the queue to the poll that claimed the lease. */
  lemma TakeKeepsInv(c: Config, s: State, listener: string, t: State)
    requires Inv(c, s) && s.queue != [] && s.queue[0] in s.pending
    requires t == s.(queue := s.queue[1..], pending := Given(s.pending, s.queue[0], listener), lease := t.lease, waiter := None,
                     deliveries := s.deliveries + [(s.queue[0], listener)])
    requires t.lease.Some?
    ensures Inv(c, t)
  {
    var id := s.queue[0];
    assert id in s.issued && s.pending[id].phase.Queued? by { assert id in Undelivered(s.pending); }
    assert t.pending.Keys == s.pending.Keys;
    hide QueueInv; hide SettleInv; hide HistoryInv; hide OrderInv; hide DeliveredInv; hide ApprovalInv;
    OrderOfQueue(s.deliveries, s.queue, s.issued);
    SameKeys(s.pending, t.pending);
    TakeKeepsQueue(s.queue, s.pending, listener);
    TakeKeepsOrder(s.deliveries, s.queue, s.issued, listener);
    GiveKeepsDelivered(s.deliveries, s.pending, s.outcomes, id, t.pending[id], listener);
    GiveKeepsApprovals(s.approvals, s.deliveries, s.pending, id, t.pending[id], listener);
  }

  lemma QueueHeadIsPending(c: Config, s: State)
    requires Inv(c, s) && s.queue != []
    ensures s.queue[0] in s.pending
  {
    hide SettleInv; hide HistoryInv; hide OrderInv; hide DeliveredInv; hide ApprovalInv;
    assert s.queue[0] in Undelivered(s.pending);
  }

  /** A claim that finds nothing queued. */
  lemma ClaimKeepsInv(c: Config, s: State, listener: string, t: State)
    requires Inv(c, s) && t == s.(lease := t.lease, waiter := t.waiter)
    requires t.lease.Some? && t.lease.value.listener == listener
    requires t.waiter.Some? ==> t.waiter.value.listener == listener && s.queue == []
    ensures Inv(c, t)
  {
    hide QueueInv; hide SettleInv; hide HistoryInv; hide OrderInv; hide DeliveredInv; hide ApprovalInv;
  }

  lemma NextKeepsInv(c: Config, s0: State, raw: Option<string>, waitMs: nat, aborted: bool, token: nat, now: nat)
    requires Inv(c, s0)
    ensures Inv(c, Next(c, s0, raw, waitMs, aborted, token, now).0)
  {
    ExpireIfNeededKeepsInv(c, s0, now);
    var s := ExpireIfNeeded(s0, now);
    var (t, reply) := Next(c, s0, raw, waitMs, aborted, token, now);
    WaiterIsHolders(c, s);
    hide Inv;
    if reply.Request? {
      QueueHeadIsPending(c, s);
      TakeKeepsInv(c, s, NormalizeListener(raw).value, t);
    } else if t != s {
      ClaimKeepsInv(c, s, NormalizeListener(raw).value, t);
    }
  }

  lemma WaiterIsHolders(c: Config, s: State)
    requires Inv(c, s)
    ensures s.waiter.Some? ==> s.queue == [] && s.lease.Some? && s.waiter.value.listener == s.lease.value.listener
  {
    hide QueueInv; hide SettleInv; hide HistoryInv; hide OrderInv; hide DeliveredInv; hide ApprovalInv;
  }

  // ----- submitting -----

  lemma NewIdKeepsSettleInv(issued: seq<Id>, unsettled: set<Id>, settled: multiset<Id>, done: set<Id>, id: Id)
    requires SettleInv(issued, unsettled, settled, done) && id !in issued
    ensures SettleInv(issued + [id], unsettled + {id}, settled, done)
  {
  }

  lemma RecordKeepsHistoryInv(h: seq<Entry>, issued: seq<Id>, unsettled: set<Id>, outcomes: map<Id, Outcome>, id: Id)
    requires HistoryInv(h, issued, unsettled, outcomes) && id !in issued
    ensures HistoryInv(Record(h, id), issued + [id], unsettled + {id}, outcomes)
  {
    var h', issued' := Record(h, id), issued + [id];
    var skip := |h| + 1 - |h'|;
    forall i | 0 <= i < |h'| ensures h'[i].id == issued'[|issued'| - |h'| + i] && EntryTells(h'[i], unsettled + {id}, outcomes) {
      if i + skip < |h| {
        assert h'[i] == h[i + skip];
        assert h[i + skip].id == issued[|issued| - |h| + i + skip];
        assert EntryTells(h[i + skip], unsettled, outcomes);
      }
    }
  }

  lemma NewIdKeepsOrder(d: seq<(Id, string)>, queue: seq<Id>, issued: seq<Id>, id: Id, to: string)
    requires OrderInv(d, queue, issued) && id !in issued && forall i | 0 <= i < |queue| :: queue[i] in issued
    ensures OrderInv(d, queue + [id], issued + [id])
    ensures queue == [] ==> OrderInv(d + [(id, to)], [], issued + [id])
  {
    var all := DeliveredIds(d) + queue;
    OrderAfterIssue(all, issued, id);
    assert DeliveredIds(d) + (queue + [id]) == all + [id];
    if queue == [] { assert DeliveredIds(d + [(id, to)]) + [] == all + [id]; }
  }

  lemma EnqueueKeepsQueue(queue: seq<Id>, pending: map<Id, Pending>, id: Id, p: Pending)
    requires QueueInv(queue, Undelivered(pending)) && id !in pending
    ensures p.phase.Queued? ==> QueueInv(queue + [id], Undelivered(pending[id := p]))
    ensures p.phase.Delivered? ==> QueueInv(queue, Undelivered(pending[id := p]))
  {
  }

  lemma EnqueueKeepsDelivered(d: seq<(Id, string)>, pending: map<Id, Pending>, outcomes: map<Id, Outcome>, id: Id, p: Pending)
    requires DeliveredInv(d, pending, outcomes) && p.phase.Queued? && !WasDelivered(d, id)
    ensures DeliveredInv(d, pending[id := p], outcomes)
  {
  }

  lemma EnqueueKeepsApprovals(approvals: seq<Approval>, d: seq<(Id, string)>, pending: map<Id, Pending>, id: Id, p: Pending)
    requires ApprovalInv(approvals, d, pending) && !WasDelivered(d, id)
    ensures ApprovalInv(approvals, d, pending[id := p])
  {
    forall i | 0 <= i < |approvals| ensures WasDelivered(d, approvals[i].id) {
      var j :| 0 <= j < |d| && d[j] == (approvals[i].id, approvals[i].owner);
    }
  }

  /** What a fresh id is not. */
  lemma FreshId(c: Config, s: State, id: Id)
    requires Inv(c, s) && id !in s.issued
    ensures id !in s.pending && !WasDelivered(s.deliveries, id) && forall i | 0 <= i < |s.queue| :: s.queue[i] in s.issued
  {
    forall i | 0 <= i < |s.queue| ensures s.queue[i] in s.issued { assert s.queue[i] in Undelivered(s.pending); }
  }

  lemma OneMore(pending: map<Id, Pending>, id: Id, p: Pending)
    requires id !in pending
    ensures pending[id := p].Keys == pending.Keys + {id} && |pending[id := p]| == |pending| + 1
  {
    assert |pending[id := p]| == |pending[id := p].Keys| && |pending| == |pending.Keys|;
  }

  /** A new request: appended to the queue, or handed to the parked poll when the queue is empty. */
  lemma AcceptKeepsInv(c: Config, s: State, id: Id, p: Pending, to: string, t: State)
    requires Inv(c, s) && id !in s.issued && |s.pending| < c.maxQueueSize
    requires !p.executing && s.lease.Some?
    requires if p.phase.Queued?
             then s.waiter.None? && t == s.(pending := s.pending[id := p], issued := s.issued + [id], history := Record(s.history, id),
                                           queue := s.queue + [id])
             else p.phase == Delivered(to) && s.queue == []
                  && t == s.(pending := s.pending[id := p], issued := s.issued + [id], history := Record(s.history, id),
                             waiter := None, deliveries := s.deliveries + [(id, to)])
    ensures Inv(c, t)
  {
    FreshId(c, s, id);
    hide QueueInv; hide SettleInv; hide HistoryInv; hide OrderInv; hide DeliveredInv; hide ApprovalInv; hide Record; hide Undelivered;
    hide WasDelivered;
    OneMore(s.pending, id, p);
    NewIdKeepsSettleInv(s.issued, s.pending.Keys, s.settled, s.outcomes.Keys, id);
    RecordKeepsHistoryInv(s.history, s.issued, s.pending.Keys, s.outcomes, id);
    NewIdKeepsOrder(s.deliveries, s.queue, s.issued, id, to);
    EnqueueKeepsQueue(s.queue, s.pending, id, p);
    if p.phase.Queued? {
      EnqueueKeepsDelivered(s.deliveries, s.pending, s.outcomes, id, p);
      EnqueueKeepsApprovals(s.approvals, s.deliveries, s.pending, id, p);
    } else {
      GiveKeepsDelivered(s.deliveries, s.pending, s.outcomes, id, p, to);
      GiveKeepsApprovals(s.approvals, s.deliveries, s.pending, id, p, to);
    }
  }

  lemma SubmitKeepsInv(c: Config, s0: State, id: Id, isTool: bool, isExecute: bool, aborted: bool, now: nat)
    requires Inv(c, s0) && id !in s0.issued
    ensures Inv(c, Submit(c, s0, id, isTool, isExecute, aborted, now).0)
  {
    ExpireIfNeededKeepsInv(c, s0, now);
    var s := ExpireIfNeeded(s0, now);
    var (t, reply) := Submit(c, s0, id, isTool, isExecute, aborted, now);
    if reply.Accepted? {
      WaiterIsHolders(c, s);
      hide Inv; hide Record;
      AcceptKeepsInv(c, s, id, t.pending[id], s.lease.value.listener, t);
    }
  }

  // ----- all runs -----

  lemma StepKeepsInv(c: Config, s: State, e: Event)
    requires Inv(c, s) && Enabled(s, e)
    ensures Inv(c, Step(c, s, e))
  {
    hide Inv;
    match e
    case ESubmit(id, isTool, isExecute, aborted, now) => SubmitKeepsInv(c, s, id, isTool, isExecute, aborted, now);
    case ENext(raw, waitMs, aborted, token, now) => NextKeepsInv(c, s, raw, waitMs, aborted, token, now);
    case ERespond(id, raw, response, now) => RespondKeepsInv(c, s, id, raw, response, now);
    case EApprove(id, listener, now) => ApproveKeepsInv(c, s, id, listener, now);
    case ERelease(listener) => ReleaseKeepsInv(c, s, listener);
    case EStatus(now) => ExpireIfNeededKeepsInv(c, s, now);
    case EClose => CloseKeepsInv(c, s);
    case ETimeout(id) => DropKeepsInv(c, s, id, Timeout);
    case EAbort(id) => DropKeepsInv(c, s, id, Refused);
    case EUnpark(token) => UnparkKeepsInv(c, s, token);
    case ELeaseTimer => ExpireKeepsInv(c, s);
  }

  /** The invariant holds in every state that any interleaving of steps reaches. */
  lemma {:induction false} RunKeepsInv(c: Config, es: seq<Event>)
    requires ValidRun(c, es)
    ensures Inv(c, Run(c, es))
  {
    if es == [] {
      assert Inv(c, Init());
    } else {
      RunKeepsInv(c, es[..|es| - 1]);
      hide Inv;
      StepKeepsInv(c, Run(c, es[..|es| - 1]), es[|es| - 1]);
    }
  }

  lemma ReachableInv(c: Config, s: State)
    requires Reachable(c, s)
    ensures Inv(c, s)
  {
    hide Inv;
    var es :| ValidRun(c, es) && Run(c, es) == s;
    RunKeepsInv(c, es);
  }

  // ----- what it gives -----

  /** In every reachable state each submitted request settles at most once, and exactly when it has left `pending`. */
  lemma SettledExactlyOnLeaving(c: Config, s: State, id: Id)
    requires Reachable(c, s) && id in s.issued
    ensures s.settled[id] == if id in s.pending then 0 else 1
    ensures id in s.outcomes <==> id !in s.pending
  {
    ReachableInv(c, s);
    hide QueueInv; hide HistoryInv; hide LeaseInv; hide OrderInv; hide DeliveredInv; hide ApprovalInv;
    assert id in s.outcomes.Keys <==> id !in s.pending.Keys;
  }

  lemma {:induction false} DistinctSize(q: seq<Id>, ids: set<Id>)
    requires forall i, j | 0 <= i < j < |q| :: q[i] != q[j]
    requires forall k :: k in q <==> k in ids
    ensures |q| == |ids|
  {
    if q == [] {
      assert ids == {};
    } else {
      var rest := q[1..];
      assert q == [q[0]] + rest;
      forall k ensures k in rest <==> k in ids - {q[0]} {
        if k in rest { var j :| 0 <= j < |rest| && rest[j] == k; assert q[j + 1] == k; }
      }
      DistinctSize(rest, ids - {q[0]});
    }
  }

  function InFlight(pending: map<Id, Pending>): set<Id> { set i | i in pending && pending[i].phase.Delivered? }

  lemma StatusCounts(c: Config, s: State)
    requires Inv(c, s)
    ensures |s.queue| + |InFlight(s.pending)| == |s.pending| <= c.maxQueueSize
  {
    hide SettleInv; hide HistoryInv; hide DeliveredInv; hide ApprovalInv; hide InIssueOrder;
    OrderOfQueue(s.deliveries, s.queue, s.issued);
    DistinctSize(s.queue, Undelivered(s.pending));
    assert Undelivered(s.pending) + InFlight(s.pending) == s.pending.Keys && Undelivered(s.pending) !! InFlight(s.pending);
    assert |s.pending| == |s.pending.Keys|;
  }

  /** The counters of `status` add up: queued and in flight are all of `pending`, which never exceeds the queue size. */
  lemma CountersAddUp(c: Config, s: State)
    requires Reachable(c, s)
    ensures |s.queue| + |InFlight(s.pending)| == |s.pending| <= c.maxQueueSize
  {
    ReachableInv(c, s);
    StatusCounts(c, s);
  }

  lemma {:induction false} PositionAt(issued: seq<Id>, i: nat)
    requires NoDuplicates(issued) && i < |issued|
    ensures PositionOf(issued, issued[i]) == i
  {
    var n := PositionOf(issued, issued[i]);
    assert issued[n] == issued[i];
  }

  /** What is queued was issued after everything delivered. */
  lemma QueuedAfterDelivered(d: seq<(Id, string)>, queue: seq<Id>, issued: seq<Id>, a: nat, b: nat)
    requires OrderInv(d, queue, issued) && a < |d| && b < |queue|
    ensures PositionOf(issued, d[a].0) < PositionOf(issued, queue[b])
  {
    var all := DeliveredIds(d) + queue;
    assert all[a] == d[a].0 && all[|d| + b] == queue[b];
  }

  lemma OvertakenIsNotQueued(d: seq<(Id, string)>, queue: seq<Id>, issued: seq<Id>, i: nat, j: nat)
    requires OrderInv(d, queue, issued) && NoDuplicates(issued) && i < j < |issued| && WasDelivered(d, issued[j])
    ensures issued[i] !in queue
  {
    PositionAt(issued, i);
    PositionAt(issued, j);
    var a :| 0 <= a < |d| && d[a].0 == issued[j];
    forall b | 0 <= b < |queue| ensures queue[b] != issued[i] { QueuedAfterDelivered(d, queue, issued, a, b); }
  }

  lemma OvertakenWasDropped(c: Config, s: State, i: nat, j: nat)
    requires Inv(c, s) && i < j < |s.issued| && WasDelivered(s.deliveries, s.issued[j]) && !WasDelivered(s.deliveries, s.issued[i])
    ensures s.issued[i] in s.outcomes && Undeliverable(s.outcomes[s.issued[i]])
  {
    var id := s.issued[i];
    OvertakenIsNotQueued(s.deliveries, s.queue, s.issued, i, j);
    hide OrderInv; hide HistoryInv; hide ApprovalInv; hide NoDuplicates;
    assert id !in Undelivered(s.pending);
    assert id in s.issued;
    assert id in s.outcomes.Keys;
  }

  /** Requests reach the UI in submission order; one that was overtaken was rejected before it could be delivered. */
  lemma DeliveredInOrder(c: Config, s: State)
    requires Reachable(c, s)
    ensures InIssueOrder(DeliveredIds(s.deliveries), s.issued)
    ensures forall i, j | 0 <= i < j < |s.issued| && WasDelivered(s.deliveries, s.issued[j]) && !WasDelivered(s.deliveries, s.issued[i]) ::
                 s.issued[i] in s.outcomes && Undeliverable(s.outcomes[s.issued[i]])
  {
    ReachableInv(c, s);
    PrefixOrder(DeliveredIds(s.deliveries), s.queue, s.issued);
    hide Inv; hide InIssueOrder;
    forall i, j | 0 <= i < j < |s.issued| && WasDelivered(s.deliveries, s.issued[j]) && !WasDelivered(s.deliveries, s.issued[i])
      ensures s.issued[i] in s.outcomes && Undeliverable(s.outcomes[s.issued[i]])
    {
      OvertakenWasDropped(c, s, i, j);
    }
  }

  /** No request is delivered twice. */
  lemma DeliveredOnce(c: Config, s: State, i: nat, j: nat)
    requires Reachable(c, s) && i < j < |s.deliveries|
    ensures s.deliveries[i].0 != s.deliveries[j].0
  {
    DeliveredInOrder(c, s);
    OrderedDistinct(DeliveredIds(s.deliveries), s.issued);
  }

  /** A parked poll means an empty queue and belongs to the lease holder. */
  lemma ParkedPollIsHolders(c: Config, s: State)
    requires Reachable(c, s)
    ensures s.waiter.Some? ==> s.queue == [] && s.lease.Some? && s.waiter.value.listener == s.lease.value.listener
  {
    ReachableInv(c, s);
    WaiterIsHolders(c, s);
  }

  /**
   * A well-formed poll is refused exactly when another listener holds an unexpired lease, which it leaves untouched: the
   * later check, for another listener's parked poll, never fires.
   */
  lemma RefusedOnlyAtClaim(c: Config, s: State, raw: Option<string>, waitMs: nat, token: nat, now: nat)
    requires Reachable(c, s)
    ensures var u, (t, reply) := ExpireIfNeeded(s, now), Next(c, s, raw, waitMs, false, token, now);
            && (reply == NextError(Refused) <==> NormalizeListener(raw).Some? && waitMs <= c.maxUiWaitMs
                                                 && u.lease.Some? && Some(u.lease.value.listener) != NormalizeListener(raw))
            && (reply == NextError(Refused) ==> t == u)
  {
    ReachableInv(c, s);
    hide Inv;
    ExpireIfNeededKeepsInv(c, s, now);
    WaiterIsHolders(c, ExpireIfNeeded(s, now));
  }

  lemma ExpiryOnlyRemoves(s: State, now: nat, id: Id)
    ensures id in ExpireIfNeeded(s, now).pending ==> id in s.pending && ExpireIfNeeded(s, now).pending[id] == s.pending[id]
  {
  }

  lemma SettleOne(s: State, id: Id, o: Outcome)
    ensures Settle(s, {id}, o) == s.(pending := s.pending - {id}, settled := s.settled + multiset{id}, outcomes := s.outcomes[id := o],
                                     history := SettleHistory(s.history, {id}, o))
  {
    hide SettleHistory;
    assert multiset({id}) == multiset{id};
    assert s.outcomes + Each({id}, o) == s.outcomes[id := o];
  }

  lemma AnswerSettles(u: State, id: Id, response: Response)
    ensures var t := Settle(u, {id}, OutcomeOf(response));
            && id in t.outcomes && Tells(response, t.outcomes[id]) && t.outcomes - {id} == u.outcomes - {id} && t.pending == u.pending - {id}
            && t.settled == u.settled + multiset{id} && t.lease == u.lease && t.queue == u.queue
  {
    hide Settle;
    SettleOne(u, id, OutcomeOf(response));
  }

  /** Only the listener a request was delivered to can answer it, and the answer settles exactly that request. */
  lemma OnlyOwnerAnswers(s: State, id: Id, raw: Option<string>, response: Response, now: nat)
    ensures var u, (t, reply) := ExpireIfNeeded(s, now), Respond(s, id, raw, response, now);
            if NormalizeListener(raw).Some? && Owns(u, id, NormalizeListener(raw).value)
            then id in s.pending && s.pending[id].phase == Delivered(NormalizeListener(raw).value)
                 && id in t.outcomes && Tells(response, t.outcomes[id]) && t.outcomes - {id} == u.outcomes - {id} && t.pending == u.pending - {id}
                 && t.settled == u.settled + multiset{id} && t.lease == u.lease && t.queue == u.queue
            else t == u && reply.RespondError?
  {
    hide ExpireIfNeeded; hide Settle; hide OutcomeOf; hide NormalizeListener; hide Tells;
    ExpiryOnlyRemoves(s, now, id);
    AnswerSettles(ExpireIfNeeded(s, now), id, response);
  }

  /** No request is approved twice, each only by the listener it went to, and with more than the margin left before its deadline. */
  lemma ApprovedOnceInTime(c: Config, s: State)
    requires Reachable(c, s)
    ensures (forall i, j | 0 <= i < j < |s.approvals| :: s.approvals[i].id != s.approvals[j].id)
            && (forall i | 0 <= i < |s.approvals| ::
                  (s.approvals[i].id, s.approvals[i].owner) in s.deliveries && s.approvals[i].expiresAt > s.approvals[i].at + APPROVAL_MARGIN_MS)
  {
    ReachableInv(c, s);
  }

  /** Lease expiry rejects exactly the undelivered requests; the delivered ones stay answerable. */
  lemma ExpirySparesDelivered(c: Config, s: State, id: Id)
    requires Reachable(c, s) && id in s.pending
    ensures var t := Expire(s);
            && (s.pending[id].phase.Delivered? ==> id in t.pending && t.pending[id] == s.pending[id] && id !in t.outcomes && t.settled[id] == 0)
            && (id in s.queue ==> id !in t.pending && id in t.outcomes && t.outcomes[id] == Failed(Unavailable) && t.settled[id] == 1)
            && (s.pending[id].phase.Delivered? <==> id !in s.queue)
  {
    ReachableInv(c, s);
    hide HistoryInv; hide OrderInv; hide DeliveredInv; hide ApprovalInv;
    assert id in s.queue <==> id in Undelivered(s.pending);
    assert id in s.pending.Keys && id !in s.outcomes.Keys && s.settled[id] == 0;
  }

  lemma EntryAt(c: Config, s: State, i: nat)
    requires Inv(c, s) && i < |s.history|
    ensures |s.history| == (if |s.issued| < MAX_HISTORY_ENTRIES then |s.issued| else MAX_HISTORY_ENTRIES)
    ensures s.history[i].id == s.issued[|s.issued| - |s.history| + i]
    ensures s.history[i].outcome.None? <==> s.history[i].id in s.pending
    ensures s.history[i].outcome.Some? ==> s.history[i].id in s.outcomes && s.history[i].outcome.value == s.outcomes[s.history[i].id]
  {
    hide QueueInv; hide SettleInv; hide LeaseInv; hide OrderInv; hide DeliveredInv; hide ApprovalInv;
    assert EntryTells(s.history[i], s.pending.Keys, s.outcomes);
  }

  /** The history lists the newest submissions, at most its bound, each pending exactly while its request is. */
  lemma HistoryIsRecent(c: Config, s: State, i: nat)
    requires Reachable(c, s) && i < |s.history|
    ensures |s.history| == (if |s.issued| < MAX_HISTORY_ENTRIES then |s.issued| else MAX_HISTORY_ENTRIES)
            && s.history[i].id == s.issued[|s.issued| - |s.history| + i]
            && (s.history[i].outcome.None? <==> s.history[i].id in s.pending)
            && (s.history[i].outcome.Some? ==> s.history[i].id in s.outcomes && s.history[i].outcome.value == s.outcomes[s.history[i].id])
  {
    ReachableInv(c, s);
    hide *;
    EntryAt(c, s, i);
  }
}
