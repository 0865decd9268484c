/** What the worker decides about one item, apart from the loop that drives it. */
module WorkerRules {
  import opened Wrappers
  import opened Timestamps
  import opened Table
  import Json
  import Client

  datatype WorkerConfig = WorkerConfig(batchSize: int, maxAttempts: int, backoff: seq<int>)

  /** `_backoff_seconds`: clamped to the last entry; an empty list has none. */
  function BackoffSeconds(backoff: seq<int>, attempt: nat): Option<int> {
    if backoff == [] then None
    else Some(backoff[if attempt < |backoff| then attempt else |backoff| - 1])
  }

  /** The configured delay in seconds before attempt number `j`, counted from 0: the list's own
      entry, or its last one for every later attempt. */
  function Delay(backoff: seq<int>, j: nat): int
    requires backoff != []
  {
    var last := |backoff| - 1;
    if last < j then backoff[last] else backoff[j]
  }

  lemma BackoffIsClamped(backoff: seq<int>, j: nat)
    ensures BackoffSeconds(backoff, j) == if backoff == [] then None else Some(Delay(backoff, j))
  {
  }

  /** SQLite binds scalars only, and integers only if they fit 64 bits. */
  predicate Bindable(v: Json.Value) {
    match v
    case Array(_) => false
    case Object(_) => false
    case Int(i) => -0x8000_0000_0000_0000 <= i < 0x8000_0000_0000_0000
    case _ => true
  }

  /** Exactly the values SQLite refuses. */
  lemma UnbindableValues(v: Json.Value)
    ensures !Bindable(v) <==>
            v.Array? || v.Object? || (v.Int? && (v.i > 9_223_372_036_854_775_807 || v.i < -9_223_372_036_854_775_808))
  {
  }

  /** `Escape` stands for an exception that leaves `_process`. */
  datatype Action =
    | Deliver(messageId: Json.Value)
    | Bury(reason: Reason)
    | Retry(attempt: nat, at: Instant, error: Reason)
    | Escape

  /** The branches of `_process` once `send` has returned. */
  function Decide(config: WorkerConfig, attemptCount: nat, r: Client.DeliveryResult, now: Instant): Action {
    if r.Success() then
      if Bindable(r.messageId) then Deliver(r.messageId) else Escape
    else if !r.retry then Bury(Http(r.statusCode, r.error))
    else
      var next := attemptCount + 1;
      if next >= config.maxAttempts then Bury(AttemptsExhausted(r.statusCode, r.error))
      else
        match BackoffSeconds(config.backoff, next)
        case None => Escape
        case Some(delay) =>
          var at := now + delay * MICROS_PER_SECOND;
          if 0 <= at < MAX_INSTANT then Retry(next, at, Http(r.statusCode, r.error)) else Escape
  }

  /** The statement each action runs. */
  function Carry(t: Table, id: nat, action: Action, now: Instant): Table {
    match action
    case Deliver(messageId) => MarkDelivered(t, id, now, messageId)
    case Bury(reason) => MarkDeadLetter(t, id, reason)
    case Retry(attempt, at, error) => MarkRetry(t, id, attempt, at, error)
    case Escape => t
  }

  /** What carrying out a decision does to each row. */
  lemma CarryRow(t: Table, id: nat, action: Action, now: Instant, k: nat)
    requires k in t.rows
    ensures var r := Carry(t, id, action, now);
            && k in r.rows
            && r.rows[k].id == t.rows[k].id && r.rows[k].mail == t.rows[k].mail
            && r.rows[k].receivedAt == t.rows[k].receivedAt
            && (k != id || action.Escape? ==> r.rows[k] == t.rows[k])
            && (k != id || !action.Retry? ==> r.rows[k].attemptCount == t.rows[k].attemptCount)
            && (r.rows[k].state.InFlight? ==> r.rows[k] == t.rows[k])
            && (r.rows[k].state.Delivered? ==>
                  r.rows[k] == t.rows[k] || (k == id && action.Deliver? && r.rows[k].deliveredMessageId == action.messageId))
  {
    hide Truncate;
  }

  lemma CarryKeys(t: Table, id: nat, action: Action, now: Instant)
    ensures Carry(t, id, action, now).rows.Keys == t.rows.Keys && Carry(t, id, action, now).nextId == t.nextId
  {
    hide Truncate;
  }

  /** `max(1, max_attempts - attempt_count)`: the sends a live row may still cost. */
  function Remaining(config: WorkerConfig, row: Row): (n: nat) {
    if !row.Live() then 0
    else if config.maxAttempts - row.attemptCount > 1 then config.maxAttempts - row.attemptCount
    else 1
  }

  // ---------------------------------------------------------------- what an answer leads to

  /** Worth another try: no answer, or a server error. */
  predicate Transient(wire: Client.Wire) {
    !wire.Answered? || wire.response.status >= 500
  }

  predicate Delivers(wire: Client.Wire) {
    wire.Answered? && Client.Confirmed(wire.response)
  }

  predicate LastTry(config: WorkerConfig, attemptCount: nat) {
    attemptCount + 1 >= config.maxAttempts
  }

  /** When the next try is due, in microseconds. */
  function RetryTime(config: WorkerConfig, attemptCount: nat, now: Instant): int
    requires config.backoff != []
  {
    now + Delay(config.backoff, attemptCount + 1) * MICROS_PER_SECOND
  }

  /** The reason holds the status of the answer and its cause. */
  ghost predicate Explains(wire: Client.Wire, reason: Reason) {
    && (reason.Http? || reason.AttemptsExhausted?)
    && reason.status == (if wire.Answered? then wire.response.status else 0)
    && reason.cause.Some? && Client.Tells(wire, reason.cause.value)
  }

  /** What becomes of a row whose request had this result, column by column. */
  ghost predicate Becomes(config: WorkerConfig, row: Row, wire: Client.Wire, now: Instant, r: Row) {
    && r.id == row.id && r.mail == row.mail && r.receivedAt == row.receivedAt
    && if Delivers(wire) then
         && r.state == Delivered && r.attemptCount == row.attemptCount
         && r.deliveredAt == Some(Truncate(now)) && r.lastError == None
         && (forall id | Client.Reports(wire.response, id) :: r.deliveredMessageId == id)
         && (r.deliveredMessageId == Json.Null <==> forall id | Client.Reports(wire.response, id) :: id == Json.Null)
         && r.nextAttemptAt == row.nextAttemptAt && r.deadLetterReason == row.deadLetterReason
       else if Transient(wire) && !LastTry(config, row.attemptCount) then
         && r.state == Pending && r.attemptCount == row.attemptCount + 1
         && config.backoff != [] && 0 <= RetryTime(config, row.attemptCount, now) < MAX_INSTANT
         && r.nextAttemptAt == Some(RetryTime(config, row.attemptCount, now))
         && r.lastError.Some? && r.lastError.value.Http? && Explains(wire, r.lastError.value)
         && r.deliveredAt == row.deliveredAt && r.deliveredMessageId == row.deliveredMessageId
         && r.deadLetterReason == row.deadLetterReason
       else
         && r.state == DeadLetter && r.attemptCount == row.attemptCount
         && r.deadLetterReason.Some? && r.lastError == r.deadLetterReason
         && (if Transient(wire) then r.deadLetterReason.value.AttemptsExhausted? else r.deadLetterReason.value.Http?)
         && Explains(wire, r.deadLetterReason.value)
         && r.deliveredAt == row.deliveredAt && r.deliveredMessageId == row.deliveredMessageId
         && r.nextAttemptAt == row.nextAttemptAt
  }

  /** Whatever came over the wire, unless an exception escapes: a confirmed delivery is
      delivered, a transient failure is tried again at its time until the last try, and
      everything else is dead-lettered. */
  lemma OutcomeOverWire(config: WorkerConfig, t: Table, id: nat, wire: Client.Wire, now: Instant)
    requires id in t.rows && Client.Receive(wire).Returned?
    requires !Decide(config, t.rows[id].attemptCount, Client.Receive(wire).result, now).Escape?
    ensures var r := Carry(t, id, Decide(config, t.rows[id].attemptCount, Client.Receive(wire).result, now), now);
            id in r.rows && Becomes(config, t.rows[id], wire, now, r.rows[id])
  {
    var row := t.rows[id];
    Client.RetryableOutcomes(wire);
    Client.ResultTells(wire);
    BackoffIsClamped(config.backoff, row.attemptCount + 1);
    if Delivers(wire) {
      Client.NoReportedId(wire.response);
      forall m | Client.Reports(wire.response, m)
        ensures Client.Receive(wire).result.messageId == m
      {
        Client.ReportedId(wire.response, m);
      }
    }
    hide Client.Receive, Client.Confirmed, Client.Reports, BackoffSeconds, Delay, Truncate, Bindable, Client.Tells;
  }

  /** And exactly when an exception escapes. */
  lemma EscapesIff(config: WorkerConfig, attemptCount: nat, wire: Client.Wire, now: Instant)
    requires Client.Receive(wire).Returned?
    ensures Decide(config, attemptCount, Client.Receive(wire).result, now).Escape? <==>
            if Delivers(wire) then !Bindable(Client.Receive(wire).result.messageId)
            else
              && Transient(wire) && !LastTry(config, attemptCount)
              && (config.backoff == [] || !(0 <= RetryTime(config, attemptCount, now) < MAX_INSTANT))
  {
    Client.RetryableOutcomes(wire);
    BackoffIsClamped(config.backoff, attemptCount + 1);
    hide Client.Receive, Client.Confirmed, BackoffSeconds, Delay, Bindable;
  }

  /** What becomes of a row that is given up before any request. */
  lemma BuriedRow(t: Table, id: nat, reason: Reason, now: Instant)
    requires id in t.rows
    ensures var (row, r) := (t.rows[id], Carry(t, id, Bury(reason), now));
            && id in r.rows && r.rows[id].state == DeadLetter
            && r.rows[id].deadLetterReason == Some(reason) && r.rows[id].lastError == Some(reason)
            && r.rows[id].attemptCount == row.attemptCount && r.rows[id].mail == row.mail
  {
  }
}
