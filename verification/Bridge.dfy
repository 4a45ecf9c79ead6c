/**
 * The MCP bridge as a state machine. Every public method and every timer or abort callback runs to completion, so each
 * is one step. Clocks are parameters; ids come from a factory that never repeats one.
 */
module Bridge {
  import opened Values

  type Id = string

  datatype ErrorCode = Invalid | Unavailable | Refused | Stale | Timeout

  datatype Outcome = Completed | Failed(code: ErrorCode)

  datatype Phase = Queued | Delivered(to: string)

  datatype Pending = Pending(isExecute: bool, expiresAt: nat, phase: Phase, executing: bool)

  /** `outcome` is None while the entry reads "pending". */
  datatype Entry = Entry(id: Id, outcome: Option<Outcome>)

  datatype Lease = Lease(listener: string, expiresAt: nat)

  /** `token` tells one parked poll from another. */
  datatype Waiter = Waiter(listener: string, token: nat)

  datatype Config = Config(maxQueueSize: nat, timeoutMs: nat, listenerTtlMs: nat, maxUiWaitMs: nat)

  datatype Approval = Approval(id: Id, owner: string, at: nat, expiresAt: nat)

  /**
   * The bridge's fields, and four logs that only grow: ids issued, settlements per id with their outcomes,
   * deliveries and approvals.
   */
  datatype State = State(
    queue: seq<Id>,
    pending: map<Id, Pending>,
    history: seq<Entry>,
    lease: Option<Lease>,
    waiter: Option<Waiter>,
    issued: seq<Id>,
    settled: multiset<Id>,
    outcomes: map<Id, Outcome>,
    deliveries: seq<(Id, string)>,
    approvals: seq<Approval>)

  const MAX_HISTORY_ENTRIES: nat := 50
  const MAX_LISTENER_ID_BYTES: nat := 128
  const APPROVAL_MARGIN_MS: nat := 1000

  function Init(): State { State([], map[], [], None, None, [], multiset{}, map[], [], []) }

  // ----- settling -----

  function SettleHistory(h: seq<Entry>, ids: set<Id>, o: Outcome): (r: seq<Entry>)
    ensures |r| == |h|
    ensures forall i | 0 <= i < |h| :: r[i] == if h[i].id in ids then Entry(h[i].id, Some(o)) else h[i]
  {
    seq(|h|, i requires 0 <= i < |h| => if h[i].id in ids then Entry(h[i].id, Some(o)) else h[i])
  }

  function Each(ids: set<Id>, o: Outcome): (r: map<Id, Outcome>)
    ensures r.Keys == ids && forall i | i in ids :: r[i] == o
  {
    map i | i in ids :: o
  }

  /** Reject or resolve the promises of `ids`, all with outcome `o`. */
  function Settle(s: State, ids: set<Id>, o: Outcome): State {
    s.(pending := s.pending - ids, settled := s.settled + multiset(ids), outcomes := s.outcomes + Each(ids, o),
       history := SettleHistory(s.history, ids, o))
  }

  function Undelivered(pending: map<Id, Pending>): set<Id> { set i | i in pending && pending[i].phase.Queued? }

  function Expire(s: State): State {
    Settle(s, Undelivered(s.pending), Failed(Unavailable)).(lease := None, waiter := None, queue := [])
  }

  function ExpireIfNeeded(s: State, now: nat): State {
    if s.lease.Some? && now >= s.lease.value.expiresAt then Expire(s) else s
  }

  function Close(s: State): State {
    Settle(s, s.pending.Keys, Failed(Unavailable)).(lease := None, waiter := None, queue := [])
  }

  /** Where `id` first occurs; ids that do not occur come last. */
  function PositionOf(q: seq<Id>, id: Id): (n: nat)
    ensures n <= |q| && (n < |q| <==> id in q) && (n < |q| ==> q[n] == id)
  {
    if q == [] then 0 else if q[0] == id then 0 else 1 + PositionOf(q[1..], id)
  }

  function Without(q: seq<Id>, id: Id): seq<Id> {
    var k := PositionOf(q, id);
    if k < |q| then q[..k] + q[k + 1..] else q
  }

  /** A timer or abort callback: nothing happens unless the request is still pending. */
  function Drop(s: State, id: Id, code: ErrorCode): State {
    if id in s.pending then Settle(s, {id}, Failed(code)).(queue := Without(s.queue, id)) else s
  }

  // ----- requests -----

  function NormalizeListener(raw: Option<string>): Option<string> {
    match raw
    case None => Some("default")
    case Some(v) => if v == "" || |v| > MAX_LISTENER_ID_BYTES then None else Some(v)
  }

  function Record(h: seq<Entry>, id: Id): seq<Entry> {
    var all := h + [Entry(id, None)];
    if |all| > MAX_HISTORY_ENTRIES then all[1..] else all
  }

  datatype SubmitReply = Accepted | SubmitError(code: ErrorCode)

  function Submit(c: Config, s0: State, id: Id, isTool: bool, isExecute: bool, aborted: bool, now: nat): (State, SubmitReply) {
    var s := ExpireIfNeeded(s0, now);
    if aborted then (s, SubmitError(Refused))
    else if !isTool then (s, SubmitError(Invalid))
    else if s.lease.None? then (s, SubmitError(Unavailable))
    else if |s.pending| >= c.maxQueueSize then (s, SubmitError(Refused))
    else (Accept(c, s, id, isExecute, now), Accepted)
  }

  /** A new request goes to the listener's parked poll, or else into the queue. */
  function Accept(c: Config, s: State, id: Id, isExecute: bool, now: nat): State
    requires s.lease.Some?
  {
    var listener := s.lease.value.listener;
    var handOver := s.waiter.Some? && s.waiter.value.listener == listener;
    var p := Pending(isExecute, now + c.timeoutMs, if handOver then Delivered(listener) else Queued, false);
    var t := s.(pending := s.pending[id := p], issued := s.issued + [id], history := Record(s.history, id));
    if handOver then t.(waiter := None, deliveries := t.deliveries + [(id, listener)]) else t.(queue := t.queue + [id])
  }

  datatype NextReply = Request(id: Id) | NoRequest | Parked | NextError(code: ErrorCode)

  /** A poll: claim or renew the lease, replace an older poll, take the head of the queue or park. */
  function Next(c: Config, s0: State, raw: Option<string>, waitMs: nat, aborted: bool, token: nat, now: nat): (State, NextReply) {
    var s := ExpireIfNeeded(s0, now);
    match NormalizeListener(raw)
    case None => (s, NextError(Invalid))
    case Some(listener) =>
      if waitMs > c.maxUiWaitMs then (s, NextError(Invalid))
      else if aborted then (s, NoRequest)
      else if s.lease.Some? && s.lease.value.listener != listener then (s, NextError(Refused))
      else
        var t := s.(lease := Some(Lease(listener, now + c.listenerTtlMs)));
        if t.waiter.Some? && t.waiter.value.listener != listener then (t, NextError(Refused))
        else
          var u := t.(waiter := None);
          if u.queue != [] then
            var id := u.queue[0];
            (u.(queue := u.queue[1..],
                pending := if id in u.pending then u.pending[id := u.pending[id].(phase := Delivered(listener))] else u.pending,
                deliveries := u.deliveries + [(id, listener)]), Request(id))
          else if waitMs == 0 then (u, NoRequest)
          else (u.(waiter := Some(Waiter(listener, token))), Parked)
  }

  /** What the desktop UI sends back: a result (valid, invalid, or of a connection whose access is off) or an error. */
  datatype Response = ResultOk | ResultInvalid | AccessOff | ErrorMessage(valid: bool, code: Option<ErrorCode>)

  function OutcomeOf(r: Response): Outcome {
    match r
    case ResultOk => Completed
    case ResultInvalid => Failed(Invalid)
    case AccessOff => Failed(Refused)
    case ErrorMessage(valid, code) => if !valid then Failed(Invalid) else Failed(if code.Some? then code.value else Refused)
  }

  /** What an answer makes of its request: completed by a valid result alone, else failed with the code that says why. */
  ghost predicate Tells(response: Response, o: Outcome) {
    && (o == Completed <==> response.ResultOk?)
    && (response.AccessOff? ==> o == Failed(Refused))
    && (response.ResultInvalid? || (response.ErrorMessage? && !response.valid) ==> o == Failed(Invalid))
    && (response.ErrorMessage? && response.valid && response.code.Some? ==> o == Failed(response.code.value))
    && (response.ErrorMessage? && response.valid && response.code.None? ==> o == Failed(Refused))
  }

  predicate Owns(s: State, id: Id, listener: string) { id in s.pending && s.pending[id].phase == Delivered(listener) }

  datatype RespondReply = Answered | RespondError(code: ErrorCode)

  function Respond(s0: State, id: Id, raw: Option<string>, response: Response, now: nat): (State, RespondReply) {
    var s := ExpireIfNeeded(s0, now);
    match NormalizeListener(raw)
    case None => (s, RespondError(Invalid))
    case Some(listener) =>
      if !Owns(s, id, listener) then (s, RespondError(Stale))
      else (Settle(s, {id}, OutcomeOf(response)), if response.ResultInvalid? then RespondError(Invalid) else Answered)
  }

  predicate CanApprove(s: State, id: Id, listener: string, now: nat) {
    Owns(s, id, listener) && s.pending[id].isExecute && !s.pending[id].executing && s.pending[id].expiresAt > now + APPROVAL_MARGIN_MS
  }

  function Approve(s: State, id: Id, listener: string, now: nat): (State, bool) {
    if !CanApprove(s, id, listener, now) then (s, false)
    else (s.(pending := s.pending[id := s.pending[id].(executing := true)],
             approvals := s.approvals + [Approval(id, listener, now, s.pending[id].expiresAt)]), true)
  }

  function Release(s: State, listener: string): (State, bool) {
    if s.lease.Some? && s.lease.value.listener == listener then (Close(s), true) else (s, false)
  }

  /** The timer or abort of one parked poll; a poll that was replaced is left alone. */
  function Unpark(s: State, token: nat): State {
    if s.waiter.Some? && s.waiter.value.token == token then s.(waiter := None) else s
  }

  // ----- runs -----

  datatype Event =
    | ESubmit(id: Id, isTool: bool, isExecute: bool, aborted: bool, now: nat)
    | ENext(raw: Option<string>, waitMs: nat, aborted: bool, token: nat, now: nat)
    | ERespond(id: Id, raw: Option<string>, response: Response, now: nat)
    | EApprove(id: Id, listener: string, now: nat)
    | ERelease(listener: string)
    | EStatus(now: nat)
    | EClose
    | ETimeout(id: Id)
    | EAbort(id: Id)
    | EUnpark(token: nat)
    | ELeaseTimer

  function Step(c: Config, s: State, e: Event): State {
    match e
    case ESubmit(id, isTool, isExecute, aborted, now) => Submit(c, s, id, isTool, isExecute, aborted, now).0
    case ENext(raw, waitMs, aborted, token, now) => Next(c, s, raw, waitMs, aborted, token, now).0
    case ERespond(id, raw, response, now) => Respond(s, id, raw, response, now).0
    case EApprove(id, listener, now) => Approve(s, id, listener, now).0
    case ERelease(listener) => Release(s, listener).0
    case EStatus(now) => ExpireIfNeeded(s, now)
    case EClose => Close(s)
    case ETimeout(id) => Drop(s, id, Timeout)
    case EAbort(id) => Drop(s, id, Refused)
    case EUnpark(token) => Unpark(s, token)
    case ELeaseTimer => Expire(s)
  }

  /** The id factory never repeats an id; nothing else is asked of the environment. */
  ghost predicate Enabled(s: State, e: Event) { e.ESubmit? ==> e.id !in s.issued }

  function Run(c: Config, es: seq<Event>): State {
    if es == [] then Init() else Step(c, Run(c, es[..|es| - 1]), es[|es| - 1])
  }

  ghost predicate ValidRun(c: Config, es: seq<Event>) {
    es == [] || (ValidRun(c, es[..|es| - 1]) && Enabled(Run(c, es[..|es| - 1]), es[|es| - 1]))
  }

  ghost predicate Reachable(c: Config, s: State) { exists es :: ValidRun(c, es) && Run(c, es) == s }

  // ----- the invariant -----

  ghost predicate NoDuplicates(q: seq<Id>) { forall i, j | 0 <= i < j < |q| :: q[i] != q[j] }

  /** `q` lists ids in the order in which they were issued. */
  ghost predicate InIssueOrder(q: seq<Id>, issued: seq<Id>) {
    forall i, j | 0 <= i < j < |q| :: PositionOf(issued, q[i]) < PositionOf(issued, q[j])
  }

  // Each part below names the fields it speaks of, so a step that leaves them alone keeps it.

  ghost predicate QueueInv(queue: seq<Id>, undelivered: set<Id>) { forall k :: k in queue <==> k in undelivered }

  /** Every issued id is either open or settled, never both, and settled once. */
  ghost predicate SettleInv(issued: seq<Id>, unsettled: set<Id>, settled: multiset<Id>, done: set<Id>) {
    && NoDuplicates(issued)
    && (forall k | k in unsettled :: k in issued)
    && (forall k :: settled[k] == if k in issued && k !in unsettled then 1 else 0)
    && (forall k :: k in done <==> k in issued && k !in unsettled)
  }

  /** The history shows the newest issued ids, each as pending exactly while it is, else with its outcome. */
  ghost predicate HistoryInv(history: seq<Entry>, issued: seq<Id>, unsettled: set<Id>, outcomes: map<Id, Outcome>) {
    && |history| == (if |issued| < MAX_HISTORY_ENTRIES then |issued| else MAX_HISTORY_ENTRIES)
    && (forall i | 0 <= i < |history| :: history[i].id == issued[|issued| - |history| + i])
    && (forall i | 0 <= i < |history| :: EntryTells(history[i], unsettled, outcomes))
  }

  ghost predicate EntryTells(e: Entry, unsettled: set<Id>, outcomes: map<Id, Outcome>) {
    if e.id in unsettled then e.outcome.None? else e.id in outcomes && e.outcome == Some(outcomes[e.id])
  }

  ghost predicate LeaseInv(queue: seq<Id>, lease: Option<Lease>, waiter: Option<Waiter>) {
    && (waiter.Some? ==> queue == [] && lease.Some? && lease.value.listener == waiter.value.listener)
    && (queue != [] ==> lease.Some?)
  }

  function DeliveredIds(d: seq<(Id, string)>): (r: seq<Id>)
    ensures |r| == |d| && forall i | 0 <= i < |r| :: r[i] == d[i].0
  {
    seq(|d|, i requires 0 <= i < |d| => d[i].0)
  }

  ghost predicate WasDelivered(d: seq<(Id, string)>, id: Id) { exists i | 0 <= i < |d| :: d[i].0 == id }

  /** Deliveries follow the order of issue, and whatever is still queued was issued after all of them. */
  ghost predicate OrderInv(d: seq<(Id, string)>, queue: seq<Id>, issued: seq<Id>) {
    && InIssueOrder(DeliveredIds(d) + queue, issued)
    && (forall i | 0 <= i < |d| :: d[i].0 in issued)
  }

  /** Outcomes a request can get without having been delivered. */
  ghost predicate Undeliverable(o: Outcome) { o == Failed(Timeout) || o == Failed(Refused) || o == Failed(Unavailable) }

  /** A pending request is marked with the listener it was delivered to; an undelivered one was never answered. */
  ghost predicate DeliveredInv(d: seq<(Id, string)>, pending: map<Id, Pending>, outcomes: map<Id, Outcome>) {
    && (forall i | 0 <= i < |d| && d[i].0 in pending :: pending[d[i].0].phase == Delivered(d[i].1))
    && (forall k | k in pending && pending[k].phase.Delivered? :: WasDelivered(d, k))
    && (forall k | k in outcomes && !WasDelivered(d, k) :: Undeliverable(outcomes[k]))
  }

  ghost predicate ApprovalInv(approvals: seq<Approval>, d: seq<(Id, string)>, pending: map<Id, Pending>) {
    && (forall i, j | 0 <= i < j < |approvals| :: approvals[i].id != approvals[j].id)
    && (forall i | 0 <= i < |approvals| :: approvals[i].expiresAt > approvals[i].at + APPROVAL_MARGIN_MS)
    && (forall i | 0 <= i < |approvals| :: (approvals[i].id, approvals[i].owner) in d)
    && (forall i | 0 <= i < |approvals| && approvals[i].id in pending :: pending[approvals[i].id].executing)
  }

  ghost predicate Inv(c: Config, s: State) {
    && QueueInv(s.queue, Undelivered(s.pending))
    && SettleInv(s.issued, s.pending.Keys, s.settled, s.outcomes.Keys)
    && HistoryInv(s.history, s.issued, s.pending.Keys, s.outcomes)
    && LeaseInv(s.queue, s.lease, s.waiter)
    && OrderInv(s.deliveries, s.queue, s.issued)
    && DeliveredInv(s.deliveries, s.pending, s.outcomes)
    && ApprovalInv(s.approvals, s.deliveries, s.pending)
    && |s.pending| <= c.maxQueueSize
  }
}
