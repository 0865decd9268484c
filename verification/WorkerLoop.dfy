/** The `Worker` class: the loop over batches, proved against the steps of `Delivery`. */
module WorkerLoop {
  import opened Wrappers
  import opened Timestamps
  import opened Table
  import opened WorkerRules
  import opened QueueStore
  import opened Sums
  import Client

  /** Exceptions that come from elsewhere: from the lookup or the parser before anything is
      sent, or from the statement that was to record the outcome. */
  datatype Trouble = NoTrouble | BeforeRequest | AtStatement

  /** What the environment answers while one item is processed: whether the data source is
      in the lookup, whether the mail parses, what `send` came back with, and the clock. */
  datatype Turn = Turn(known: bool, parses: bool, answer: Client.SendResult, now: Instant, trouble: Trouble)

  /** The branches of `_process`, in order. */
  function TurnAction(config: WorkerConfig, item: Row, turn: Turn): Action {
    if !turn.trouble.NoTrouble? then Escape
    else if !turn.known then Bury(UnknownDataSource(item.mail.dsId))
    else if !turn.parses then Bury(ParseFailure)
    else
      match turn.answer
      case Raised => Escape
      case Returned(r) => Decide(config, item.attemptCount, r, turn.now)
  }

  /** The table after the first `n` items of a batch. */
  function AfterItems(config: WorkerConfig, t: Table, batch: seq<Row>, env: nat -> Turn, n: nat): Table
    requires n <= |batch|
  {
    if n == 0 then t
    else
      var before := AfterItems(config, t, batch, env, n - 1);
      Carry(before, batch[n - 1].id, TurnAction(config, batch[n - 1], env(n - 1)), env(n - 1).now)
  }

  /** A batch as `dequeue_batch` hands it out: its rows are in flight, once each. */
  predicate Fetched(t: Table, batch: seq<Row>) {
    && (forall i | 0 <= i < |batch| ::
          batch[i].state.Pending? && batch[i].id in t.rows && t.rows[batch[i].id] == batch[i].(state := InFlight))
    && (forall i, j | 0 <= i < j < |batch| :: batch[i].id != batch[j].id)
  }

  /** Row `id` is one of the items from `lo` up to `hi`. */
  predicate Among(batch: seq<Row>, lo: nat, hi: nat, id: nat)
    requires hi <= |batch|
  {
    exists i :: lo <= i < hi && batch[i].id == id
  }

  /** `r` is what processing the first `n` items leaves of `t`: other rows are alone, and each
      processed row is out of flight, has its mail, and spent an attempt or more. */
  predicate Processed(config: WorkerConfig, t: Table, batch: seq<Row>, n: nat, r: Table)
    requires n <= |batch|
  {
    && r.rows.Keys == t.rows.Keys && r.nextId == t.nextId
    && (forall id | id in t.rows && !Among(batch, 0, n, id) :: r.rows[id] == t.rows[id])
    && (forall i | 0 <= i < n ::
          && batch[i].id in r.rows && batch[i].id in t.rows
          && !r.rows[batch[i].id].state.InFlight?
          && r.rows[batch[i].id].mail == batch[i].mail
          && Remaining(config, r.rows[batch[i].id]) + 1 <= Remaining(config, t.rows[batch[i].id]))
  }

  lemma ProcessedOneMore(config: WorkerConfig, t: Table, batch: seq<Row>, n: nat, r: Table, turn: Turn)
    requires Fetched(t, batch) && n < |batch| && Processed(config, t, batch, n, r)
    requires !TurnAction(config, batch[n], turn).Escape?
    ensures Processed(config, t, batch, n + 1, Carry(r, batch[n].id, TurnAction(config, batch[n], turn), turn.now))
  {
    var item := batch[n];
    FreshItem(config, t, batch, n, r);
    CarrySpends(config, r, item, turn);
    var r' := Carry(r, item.id, TurnAction(config, item, turn), turn.now);
    hide TurnAction, Carry, Fetched;
    AmongMore(batch, n);
    hide Among;
    ExtendProcessed(config, t, batch, n, r, r');
  }

  /** The next item has not been touched. */
  lemma FreshItem(config: WorkerConfig, t: Table, batch: seq<Row>, n: nat, r: Table)
    requires Fetched(t, batch) && n < |batch| && Processed(config, t, batch, n, r)
    ensures batch[n].id in r.rows && batch[n].id in t.rows && r.rows[batch[n].id] == batch[n].(state := InFlight)
    ensures t.rows[batch[n].id] == r.rows[batch[n].id]
    ensures forall i | 0 <= i < n :: batch[i].id != batch[n].id
  {
    hide Remaining;
    assert !Among(batch, 0, n, batch[n].id);
  }

  lemma ExtendProcessed(config: WorkerConfig, t: Table, batch: seq<Row>, n: nat, r: Table, r': Table)
    requires n < |batch| && Processed(config, t, batch, n, r)
    requires r'.rows.Keys == r.rows.Keys && r'.nextId == r.nextId && batch[n].id in r.rows && batch[n].id in t.rows
    requires !r'.rows[batch[n].id].state.InFlight? && r'.rows[batch[n].id].mail == batch[n].mail
    requires Remaining(config, r'.rows[batch[n].id]) + 1 <= Remaining(config, t.rows[batch[n].id])
    requires forall id | id in r.rows && id != batch[n].id :: r'.rows[id] == r.rows[id]
    requires forall i | 0 <= i < n :: batch[i].id != batch[n].id
    requires forall id :: Among(batch, 0, n + 1, id) <==> Among(batch, 0, n, id) || id == batch[n].id
    ensures Processed(config, t, batch, n + 1, r')
  {
    hide Remaining, Among;
  }

  lemma AmongMore(batch: seq<Row>, n: nat)
    requires n < |batch|
    ensures forall id :: Among(batch, 0, n + 1, id) <==> Among(batch, 0, n, id) || id == batch[n].id
    ensures forall i | 0 <= i < n :: Among(batch, 0, n, batch[i].id)
  {
    forall id
      ensures Among(batch, 0, n + 1, id) <==> Among(batch, 0, n, id) || id == batch[n].id
    {
      if id == batch[n].id {
        assert Among(batch, 0, n + 1, id);
      } else if Among(batch, 0, n, id) {
        var i :| 0 <= i < n && batch[i].id == id;
        assert 0 <= i < n + 1 && batch[i].id == id;
      }
    }
  }

  lemma {:induction false} PrefixProcessed(config: WorkerConfig, t: Table, batch: seq<Row>, env: nat -> Turn, n: nat)
    requires Fetched(t, batch) && n <= |batch|
    requires forall k: nat | k < n :: !TurnAction(config, batch[k], env(k)).Escape?
    ensures Processed(config, t, batch, n, AfterItems(config, t, batch, env, n))
  {
    hide TurnAction, Carry, Remaining, Fetched, Processed;
    if n == 0 {
      NoneProcessed(config, t, batch);
    } else {
      PrefixProcessed(config, t, batch, env, n - 1);
      ProcessedOneMore(config, t, batch, n - 1, AfterItems(config, t, batch, env, n - 1), env(n - 1));
    }
  }

  lemma NoneProcessed(config: WorkerConfig, t: Table, batch: seq<Row>)
    ensures Processed(config, t, batch, 0, t)
  {
  }

  lemma CarrySpends(config: WorkerConfig, t: Table, item: Row, turn: Turn)
    requires item.id in t.rows && t.rows[item.id] == item.(state := InFlight)
    requires !TurnAction(config, item, turn).Escape?
    ensures var r := Carry(t, item.id, TurnAction(config, item, turn), turn.now);
            && r.rows.Keys == t.rows.Keys && r.nextId == t.nextId
            && !r.rows[item.id].state.InFlight? && r.rows[item.id].mail == item.mail
            && Remaining(config, r.rows[item.id]) + 1 <= Remaining(config, t.rows[item.id])
            && forall id | id in t.rows && id != item.id :: r.rows[id] == t.rows[id]
  {
  }

  /** The row of an item that is being processed. */
  predicate Held(row: Row, item: Row) {
    row == item.(state := InFlight)
  }

  /** What becomes of a row, told from the lookup, the parse and what came over the wire. */
  ghost predicate TurnTells(config: WorkerConfig, row: Row, turn: Turn, r: Row) {
    if turn.known && turn.parses then
      forall wire | Client.Receive(wire) == turn.answer :: Becomes(config, row, wire, turn.now, r)
    else
      && r.state == DeadLetter && r.mail == row.mail && r.attemptCount == row.attemptCount
      && r.lastError == r.deadLetterReason
      && r.deadLetterReason == Some(if turn.known then ParseFailure else UnknownDataSource(row.mail.dsId))
  }

  lemma OutcomeOfTurn(config: WorkerConfig, t: Table, item: Row, turn: Turn)
    ensures var r := Carry(t, item.id, TurnAction(config, item, turn), turn.now);
            item.id in t.rows && Held(t.rows[item.id], item) && !TurnAction(config, item, turn).Escape? ==>
              item.id in r.rows && TurnTells(config, t.rows[item.id], turn, r.rows[item.id])
  {
    hide Client.Receive, Becomes, Decide, Carry;
    if item.id in t.rows && Held(t.rows[item.id], item) && !TurnAction(config, item, turn).Escape? {
      if turn.known && turn.parses {
        CarryKeys(t, item.id, TurnAction(config, item, turn), turn.now);
        forall wire | Client.Receive(wire) == turn.answer
          ensures var r := Carry(t, item.id, TurnAction(config, item, turn), turn.now);
                  Becomes(config, t.rows[item.id], wire, turn.now, r.rows[item.id])
        {
          OutcomeOverWire(config, t, item.id, wire, turn.now);
        }
      } else {
        BuriedRow(t, item.id, TurnAction(config, item, turn).reason, turn.now);
      }
    }
  }

  class Worker {
    const queue: Queue
    const config: WorkerConfig

    constructor (queue: Queue, config: WorkerConfig)
      ensures this.queue == queue && this.config == config
    {
      this.queue, this.config := queue, config;
    }

    /** `_dead_letter`. */
    method DeadLetter(item: Row, reason: Reason, fails: bool) returns (escaped: bool)
      requires queue.Valid()
      modifies queue
      ensures queue.Valid() && escaped == fails
      ensures queue.table == if fails then old(queue.table) else Carry(old(queue.table), item.id, Bury(reason), 0)
    {
      if !fails {
        queue.MarkDeadLetter(item.id, reason);
      }
      return fails;
    }

    /** One item. True when an exception leaves it, with the row still in flight. */
    method Process(item: Row, turn: Turn) returns (escaped: bool)
      requires queue.Valid()
      modifies queue
      ensures queue.Valid()
      ensures escaped == TurnAction(config, item, turn).Escape?
      ensures queue.table == Carry(old(queue.table), item.id, TurnAction(config, item, turn), turn.now)
      ensures item.id in old(queue.table).rows && Held(old(queue.table).rows[item.id], item) && !escaped ==>
                item.id in queue.table.rows
                && TurnTells(config, old(queue.table).rows[item.id], turn, queue.table.rows[item.id])
    {
      OutcomeOfTurn(config, queue.table, item, turn);
      if turn.trouble.BeforeRequest? {
        return true;
      }
      var fails := turn.trouble.AtStatement?;
      if !turn.known {
        escaped := DeadLetter(item, UnknownDataSource(item.mail.dsId), fails);
        return;
      }
      if !turn.parses {
        escaped := DeadLetter(item, ParseFailure, fails);
        return;
      }
      if turn.answer.Raised? {
        return true;
      }
      var result := turn.answer.result;
      if result.Success() {
        var ok := !fails;
        if ok {
          ok := queue.MarkDelivered(item.id, result.messageId, turn.now);
        }
        return !ok;
      }
      if !result.retry {
        escaped := DeadLetter(item, Http(result.statusCode, result.error), fails);
        return;
      }
      var next := item.attemptCount + 1;
      if next >= config.maxAttempts {
        escaped := DeadLetter(item, AttemptsExhausted(result.statusCode, result.error), fails);
        return;
      }
      var delay := BackoffSeconds(config.backoff, next);
      if delay.None? {
        return true;
      }
      var at := turn.now + delay.value * MICROS_PER_SECOND;
      if !(0 <= at < MAX_INSTANT) {
        return true;
      }
      if !fails {
        queue.MarkRetry(item.id, next, at, Http(result.statusCode, result.error));
      }
      return fails;
    }

    /** One poll cycle; `fails` when `dequeue_batch` raises, which is caught. The result says
        which rows were fetched and how many of them were finished: all, unless an exception
        escaped. Afterwards the rows in flight are those before and those of the unfinished
        items, and every finished row has spent at least one attempt. */
    method Tick(now: Instant, env: nat -> Turn, fails: bool) returns (poll: Poll)
      requires queue.Valid()
      modifies queue
      ensures queue.Valid()
      ensures poll.failed == fails && IsPoll(config, old(queue.table), now, env, poll)
      ensures queue.table == AfterPoll(config, old(queue.table), env, poll)
      ensures forall id :: id in InFlightIds(queue.table) <==>
                id in InFlightIds(old(queue.table)) || Among(poll.batch, poll.finished, |poll.batch|, id)
      ensures forall i | 0 <= i < poll.finished ::
                && poll.batch[i].id in old(queue.table).rows && poll.batch[i].id in queue.table.rows
                && Remaining(config, queue.table.rows[poll.batch[i].id]) + 1
                     <= Remaining(config, old(queue.table).rows[poll.batch[i].id])
    {
      hide *;
      ghost var start := queue.table;
      if fails {
        poll := PollResult(true, [], 0);
        NothingPolled(config, start, now, env, poll);
        return;
      }
      var batch := queue.DequeueBatch(config.batchSize, now);
      ghost var fetched := queue.table;
      FetchedBatch(start, now, config.batchSize, batch);
      var finished := 0;
      AfterNone(config, fetched, batch, env);
      while finished < |batch|
        invariant finished <= |batch|
        invariant queue.Valid()
        invariant queue.table == AfterItems(config, fetched, batch, env, finished)
        invariant forall k: nat | k < finished :: !TurnAction(config, batch[k], env(k)).Escape?
      {
        ghost var before := queue.table;
        var escaped := Process(batch[finished], env(finished));
        if escaped {
          NothingCarried(config, batch[finished], env(finished), before);
          break;
        }
        AfterOneMore(config, fetched, batch, env, finished);
        finished := finished + 1;
      }
      TickOutcome(config, start, batch, env, finished);
      poll := PollResult(false, batch, finished);
      Polled(config, start, now, env, poll);
    }

    /** `run_forever` for a given number of polls before the stop signal: requeue what a
        crashed worker left behind, then tick. Not stopped when an exception ended the worker.
        The table is what the polls made leave of the requeued one. However it ends, it never
        processes more items than the table had attempts left, touches no row that was
        delivered or dead-lettered, and changes no mail. */
    method RunForever(clock: nat -> Instant, env: nat -> nat -> Turn, fails: nat -> bool, count: nat)
      returns (stopped: bool, processed: nat, ghost polls: seq<Poll>)
      requires queue.Valid()
      modifies queue
      ensures queue.Valid()
      ensures stopped ==> InFlightIds(queue.table) == {}
      ensures Advances(config, old(queue.table), queue.table, processed)
      ensures ArePolls(config, RequeueInFlight(old(queue.table)), clock, env, fails, polls)
      ensures queue.table == AfterPolls(config, RequeueInFlight(old(queue.table)), env, polls, |polls|)
      ensures stopped <==> AllComplete(polls)
      ensures |polls| <= count && (stopped ==> |polls| == count)
    {
      hide *;
      ghost var start := queue.table;
      var touched := queue.RequeueInFlight();
      processed, polls := 0, [];
      NotYetLived(config, start, clock, env, fails);
      var n := 0;
      while n < count
        invariant n == |polls| <= count && queue.Valid() && InFlightIds(queue.table) == {}
        invariant Lived(config, start, clock, env, fails, polls, processed, queue.table) && AllComplete(polls)
      {
        ghost var before := queue.table;
        ValidIsWellFormed(queue);
        var poll := Tick(clock(n), env(n), fails(n));
        LivesOn(config, start, clock, env, fails, polls, processed, before, poll);
        processed, polls := processed + poll.finished, polls + [poll];
        if poll.finished < |poll.batch| {
          LivedIs(config, start, clock, env, fails, polls, processed, queue.table);
          return false, processed, polls;
        }
        NoneLeft(poll.batch);
        n := n + 1;
      }
      LivedIs(config, start, clock, env, fails, polls, processed, queue.table);
      stopped := true;
    }
  }

  // ---------------------------------------------------------------- polls

  /** One poll: whether `dequeue_batch` failed, the batch, and how many items were finished. */
  datatype PollResult = PollResult(failed: bool, batch: seq<Row>, finished: nat)

  type Poll = p: PollResult | p.finished <= |p.batch| witness PollResult(true, [], 0)

  ghost predicate IsPoll(config: WorkerConfig, t: Table, now: Instant, env: nat -> Turn, p: Poll) {
    if p.failed then p.batch == []
    else
      && IsBatch(t, now, config.batchSize, IdsOf(p.batch))
      && (forall i | 0 <= i < |p.batch| :: p.batch[i].id in t.rows && p.batch[i] == t.rows[p.batch[i].id])
      && (p.finished < |p.batch| ==> TurnAction(config, p.batch[p.finished], env(p.finished)).Escape?)
      && (forall k: nat | k < p.finished :: !TurnAction(config, p.batch[k], env(k)).Escape?)
  }

  function AfterPoll(config: WorkerConfig, t: Table, env: nat -> Turn, p: Poll): Table {
    if p.failed then t else AfterItems(config, SetInFlight(t, IdsOf(p.batch)), p.batch, env, p.finished)
  }

  predicate Complete(p: Poll) {
    p.finished == |p.batch|
  }

  predicate AllComplete(polls: seq<Poll>) {
    forall i | 0 <= i < |polls| :: Complete(polls[i])
  }

  /** The table after the first `n` polls. */
  function AfterPolls(config: WorkerConfig, t: Table, env: nat -> nat -> Turn, polls: seq<Poll>, n: nat): Table
    requires n <= |polls|
  {
    if n == 0 then t else AfterPoll(config, AfterPolls(config, t, env, polls, n - 1), env(n - 1), polls[n - 1])
  }

  ghost predicate PollAt(config: WorkerConfig, t: Table, clock: nat -> Instant, env: nat -> nat -> Turn,
                         fails: nat -> bool, polls: seq<Poll>, i: nat)
    requires i < |polls|
  {
    && polls[i].failed == fails(i)
    && IsPoll(config, AfterPolls(config, t, env, polls, i), clock(i), env(i), polls[i])
  }

  /** Each poll starts from what the ones before it left; only the last may be cut short. */
  ghost predicate ArePolls(config: WorkerConfig, t: Table, clock: nat -> Instant, env: nat -> nat -> Turn,
                           fails: nat -> bool, polls: seq<Poll>) {
    && (forall i: nat | i < |polls| :: PollAt(config, t, clock, env, fails, polls, i))
    && (forall i | 0 <= i < |polls| - 1 :: Complete(polls[i]))
  }

  lemma NoPolls(config: WorkerConfig, t: Table, clock: nat -> Instant, env: nat -> nat -> Turn, fails: nat -> bool)
    ensures ArePolls(config, t, clock, env, fails, []) && AllComplete([])
    ensures AfterPolls(config, t, env, [], 0) == t
  {
  }

  /** Later polls do not change what earlier ones left. */
  lemma {:induction false} PrefixPolls(config: WorkerConfig, t: Table, env: nat -> nat -> Turn, polls: seq<Poll>,
                                       more: seq<Poll>, n: nat)
    requires n <= |polls|
    ensures AfterPolls(config, t, env, polls + more, n) == AfterPolls(config, t, env, polls, n)
  {
    hide AfterPoll;
    if n > 0 {
      PrefixPolls(config, t, env, polls, more, n - 1);
    }
  }

  lemma OneMorePoll(config: WorkerConfig, t: Table, clock: nat -> Instant, env: nat -> nat -> Turn, fails: nat -> bool,
                    polls: seq<Poll>, p: Poll)
    requires ArePolls(config, t, clock, env, fails, polls) && AllComplete(polls)
    requires p.failed == fails(|polls|)
    requires IsPoll(config, AfterPolls(config, t, env, polls, |polls|), clock(|polls|), env(|polls|), p)
    ensures ArePolls(config, t, clock, env, fails, polls + [p])
    ensures AfterPolls(config, t, env, polls + [p], |polls| + 1) ==
            AfterPoll(config, AfterPolls(config, t, env, polls, |polls|), env(|polls|), p)
    ensures AllComplete(polls + [p]) <==> p.finished == |p.batch|
  {
    var all := polls + [p];
    LastPoll(config, t, env, all);
    PrefixPolls(config, t, env, polls, [p], |polls|);
    hide IsPoll, AfterPoll, AfterPolls;
    forall i: nat | i < |all|
      ensures PollAt(config, t, clock, env, fails, all, i)
    {
      if i < |polls| {
        PollExtends(config, t, clock, env, fails, polls, p, i);
      }
    }
    hide PollAt;
    assert forall i | 0 <= i < |polls| :: all[i] == polls[i];
    assert all[|polls|] == p;
  }

  lemma PollExtends(config: WorkerConfig, t: Table, clock: nat -> Instant, env: nat -> nat -> Turn, fails: nat -> bool,
                    polls: seq<Poll>, p: Poll, i: nat)
    requires i < |polls| && PollAt(config, t, clock, env, fails, polls, i)
    ensures PollAt(config, t, clock, env, fails, polls + [p], i)
  {
    hide IsPoll, AfterPolls;
    PrefixPolls(config, t, env, polls, [p], i);
  }

  lemma LastPoll(config: WorkerConfig, t: Table, env: nat -> nat -> Turn, polls: seq<Poll>)
    requires polls != []
    ensures var n := |polls| - 1;
            AfterPolls(config, t, env, polls, |polls|) ==
            AfterPoll(config, AfterPolls(config, t, env, polls, n), env(n), polls[n])
  {
    hide AfterPoll;
  }

  /** After these polls of a worker that found `start`, the table is `t`. */
  ghost predicate Lived(config: WorkerConfig, start: Table, clock: nat -> Instant, env: nat -> nat -> Turn,
                        fails: nat -> bool, polls: seq<Poll>, processed: nat, t: Table) {
    && Advances(config, start, t, processed)
    && ArePolls(config, RequeueInFlight(start), clock, env, fails, polls)
    && t == AfterPolls(config, RequeueInFlight(start), env, polls, |polls|)
  }

  lemma LivedIs(config: WorkerConfig, start: Table, clock: nat -> Instant, env: nat -> nat -> Turn,
                fails: nat -> bool, polls: seq<Poll>, processed: nat, t: Table)
    requires Lived(config, start, clock, env, fails, polls, processed, t)
    ensures Advances(config, start, t, processed)
    ensures ArePolls(config, RequeueInFlight(start), clock, env, fails, polls)
    ensures t == AfterPolls(config, RequeueInFlight(start), env, polls, |polls|)
  {
    hide Advances, ArePolls, AfterPolls, RequeueInFlight;
  }

  lemma NotYetLived(config: WorkerConfig, start: Table, clock: nat -> Instant, env: nat -> nat -> Turn, fails: nat -> bool)
    ensures Lived(config, start, clock, env, fails, [], 0, RequeueInFlight(start)) && AllComplete([])
  {
    hide Advances, ArePolls, AfterPolls, RequeueInFlight, AllComplete;
    RequeueAdvances(config, start);
    NoPolls(config, RequeueInFlight(start), clock, env, fails);
  }

  lemma LivesOn(config: WorkerConfig, start: Table, clock: nat -> Instant, env: nat -> nat -> Turn, fails: nat -> bool,
                polls: seq<Poll>, processed: nat, t: Table, p: Poll)
    requires WellFormed(t) && Lived(config, start, clock, env, fails, polls, processed, t) && AllComplete(polls)
    requires p.failed == fails(|polls|) && IsPoll(config, t, clock(|polls|), env(|polls|), p)
    ensures Lived(config, start, clock, env, fails, polls + [p], processed + p.finished,
                  AfterPoll(config, t, env(|polls|), p))
    ensures AllComplete(polls + [p]) <==> p.finished == |p.batch|
  {
    hide Advances, ArePolls, AfterPolls, AfterPoll, RequeueInFlight, AllComplete, IsPoll, WellFormed;
    TickAdvances(config, t, clock(|polls|), env(|polls|), p);
    AdvancesTwice(config, start, t, AfterPoll(config, t, env(|polls|), p), processed, p.finished);
    OneMorePoll(config, RequeueInFlight(start), clock, env, fails, polls, p);
  }

  lemma NothingPolled(config: WorkerConfig, t: Table, now: Instant, env: nat -> Turn, p: Poll)
    requires p == PollResult(true, [], 0)
    ensures IsPoll(config, t, now, env, p) && AfterPoll(config, t, env, p) == t
    ensures forall id :: !Among(p.batch, 0, 0, id)
  {
  }

  lemma Polled(config: WorkerConfig, t: Table, now: Instant, env: nat -> Turn, p: Poll)
    requires !p.failed
    ensures AfterPoll(config, t, env, p) == AfterItems(config, SetInFlight(t, IdsOf(p.batch)), p.batch, env, p.finished)
    ensures IsBatch(t, now, config.batchSize, IdsOf(p.batch))
            && (forall i | 0 <= i < |p.batch| :: p.batch[i].id in t.rows && p.batch[i] == t.rows[p.batch[i].id])
            && (p.finished < |p.batch| ==> TurnAction(config, p.batch[p.finished], env(p.finished)).Escape?)
            && (forall k: nat | k < p.finished :: !TurnAction(config, p.batch[k], env(k)).Escape?) ==>
              IsPoll(config, t, now, env, p)
  {
    hide IsBatch, TurnAction, AfterItems;
  }

  lemma NoneLeft(batch: seq<Row>)
    ensures forall id :: !Among(batch, |batch|, |batch|, id)
  {
  }

  lemma ValidIsWellFormed(queue: Queue)
    requires queue.Valid()
    ensures WellFormed(queue.table)
  {
  }

  // ---------------------------------------------------------------- what polling costs

  function Cost(config: WorkerConfig, t: Table, id: nat): nat {
    if id in t.rows then Remaining(config, t.rows[id]) else 0
  }

  /** The attempts left in the whole table. */
  ghost function Budget(config: WorkerConfig, t: Table): nat {
    Sum(id => Cost(config, t, id), t.nextId)
  }

  /** From `t` to `r`, `spent` items were processed. */
  ghost predicate Advances(config: WorkerConfig, t: Table, r: Table, spent: nat) {
    && r.rows.Keys == t.rows.Keys && r.nextId == t.nextId
    && (forall id | id in t.rows :: r.rows[id].mail == t.rows[id].mail)
    && (forall id | id in t.rows && !t.rows[id].Live() :: r.rows[id] == t.rows[id])
    && Budget(config, r) + spent <= Budget(config, t)
  }

  lemma AdvancesTwice(config: WorkerConfig, t: Table, r: Table, u: Table, a: nat, b: nat)
    requires Advances(config, t, r, a) && Advances(config, r, u, b)
    ensures Advances(config, t, u, a + b)
  {
    hide Budget;
  }

  lemma RequeueAdvances(config: WorkerConfig, t: Table)
    ensures Advances(config, t, RequeueInFlight(t), 0)
  {
    SumEqual(id => Cost(config, t, id), id => Cost(config, RequeueInFlight(t), id), t.nextId);
  }

  /** One tick, seen from the whole table. */
  lemma TickAdvances(config: WorkerConfig, start: Table, now: Instant, env: nat -> Turn, p: Poll)
    requires WellFormed(start) && IsPoll(config, start, now, env, p)
    ensures Advances(config, start, AfterPoll(config, start, env, p), p.finished)
  {
    if !p.failed {
      hide WellFormed, IsBatch, TurnAction, AfterItems, Advances;
      BatchAdvances(config, start, now, p.batch, env, p.finished);
    }
  }

  lemma BatchAdvances(config: WorkerConfig, start: Table, now: Instant, batch: seq<Row>, env: nat -> Turn, n: nat)
    requires WellFormed(start) && n <= |batch| && IsBatch(start, now, config.batchSize, IdsOf(batch))
    requires forall i | 0 <= i < |batch| :: batch[i].id in start.rows && batch[i] == start.rows[batch[i].id]
    requires forall k: nat | k < n :: !TurnAction(config, batch[k], env(k)).Escape?
    ensures Advances(config, start, AfterItems(config, SetInFlight(start, IdsOf(batch)), batch, env, n), n)
  {
    var t := SetInFlight(start, IdsOf(batch));
    var r := AfterItems(config, t, batch, env, n);
    hide *;
    FetchedBatch(start, now, config.batchSize, batch);
    PrefixProcessed(config, t, batch, env, n);
    BatchPending(start, now, config.batchSize, batch);
    RowsAdvance(config, start, batch, n, r);
    FrontDistinct(start, now, config.batchSize, batch, n);
    SumFallsOn(id => Cost(config, r, id), id => Cost(config, start, id), start.nextId, Ids(IdsOf(batch)[..n]));
    AdvancesBy(config, start, r, n);
  }

  lemma AdvancesBy(config: WorkerConfig, t: Table, r: Table, n: nat)
    requires r.rows.Keys == t.rows.Keys && r.nextId == t.nextId
    requires forall id | id in t.rows :: r.rows[id].mail == t.rows[id].mail
    requires forall id | id in t.rows && !t.rows[id].Live() :: r.rows[id] == t.rows[id]
    requires Sum(id => Cost(config, r, id), t.nextId) + n <= Sum(id => Cost(config, t, id), t.nextId)
    ensures Advances(config, t, r, n)
  {
    hide Cost, Sum;
  }

  lemma BatchPending(t: Table, now: Instant, limit: int, batch: seq<Row>)
    requires IsBatch(t, now, limit, IdsOf(batch))
    requires forall i | 0 <= i < |batch| :: batch[i].id in t.rows && batch[i] == t.rows[batch[i].id]
    ensures forall i | 0 <= i < |batch| :: batch[i].state.Pending?
  {
  }

  lemma RowsAdvance(config: WorkerConfig, start: Table, batch: seq<Row>, n: nat, r: Table)
    requires WellFormed(start) && n <= |batch| && forall i | 0 <= i < |batch| :: batch[i].state.Pending?
    requires forall i | 0 <= i < |batch| :: batch[i].id in start.rows && batch[i] == start.rows[batch[i].id]
    requires Processed(config, SetInFlight(start, IdsOf(batch)), batch, n, r)
    ensures r.rows.Keys == start.rows.Keys && r.nextId == start.nextId
    ensures forall id | id in Ids(IdsOf(batch)[..n]) ::
              id < start.nextId && Cost(config, r, id) + 1 <= Cost(config, start, id)
    ensures forall id: nat | id !in Ids(IdsOf(batch)[..n]) :: Cost(config, r, id) <= Cost(config, start, id)
    ensures forall id | id in start.rows :: r.rows[id].mail == start.rows[id].mail
    ensures forall id | id in start.rows && !start.rows[id].Live() :: r.rows[id] == start.rows[id]
  {
    assert r.rows.Keys == start.rows.Keys && r.nextId == start.nextId;
    hide *;
    forall id: nat
      ensures id in Ids(IdsOf(batch)[..n]) ==> id < start.nextId && Cost(config, r, id) + 1 <= Cost(config, start, id)
      ensures id !in Ids(IdsOf(batch)[..n]) ==> Cost(config, r, id) <= Cost(config, start, id)
      ensures id in start.rows ==> r.rows[id].mail == start.rows[id].mail
      ensures id in start.rows && !start.rows[id].Live() ==> r.rows[id] == start.rows[id]
    {
      OneRowAdvances(config, start, batch, n, r, id);
    }
  }

  lemma FrontDistinct(t: Table, now: Instant, limit: int, batch: seq<Row>, n: nat)
    requires IsBatch(t, now, limit, IdsOf(batch)) && n <= |batch|
    ensures |Ids(IdsOf(batch)[..n])| == n
  {
    SetOfDistinct(IdsOf(batch)[..n]);
  }

  lemma OneRowAdvances(config: WorkerConfig, start: Table, batch: seq<Row>, n: nat, r: Table, id: nat)
    requires WellFormed(start) && n <= |batch| && forall i | 0 <= i < |batch| :: batch[i].state.Pending?
    requires forall i | 0 <= i < |batch| :: batch[i].id in start.rows && batch[i] == start.rows[batch[i].id]
    requires Processed(config, SetInFlight(start, IdsOf(batch)), batch, n, r)
    ensures id in Ids(IdsOf(batch)[..n]) ==> id < start.nextId && Cost(config, r, id) + 1 <= Cost(config, start, id)
    ensures id !in Ids(IdsOf(batch)[..n]) ==> Cost(config, r, id) <= Cost(config, start, id)
    ensures id in start.rows ==> r.rows[id].mail == start.rows[id].mail
    ensures id in start.rows && !start.rows[id].Live() ==> r.rows[id] == start.rows[id]
  {
    var ids := IdsOf(batch);
    if id in Ids(ids[..n]) {
      var i :| 0 <= i < n && ids[..n][i] == id;
      assert batch[i].id == id;
      SameRemaining(config, start.rows[id]);
    } else {
      forall i | 0 <= i < n
        ensures batch[i].id != id
      {
        assert ids[..n][i] == batch[i].id;
      }
      assert !Among(batch, 0, n, id);
      if id in start.rows {
        SameRemaining(config, start.rows[id]);
      }
    }
    hide Remaining, Among;
  }

  /** A pending row costs as much in flight. */
  lemma SameRemaining(config: WorkerConfig, row: Row)
    ensures row.Live() ==> Remaining(config, row.(state := InFlight)) == Remaining(config, row)
  {
  }

  /** An escape changes nothing. */
  lemma NothingCarried(config: WorkerConfig, item: Row, turn: Turn, t: Table)
    requires TurnAction(config, item, turn).Escape?
    ensures Carry(t, item.id, TurnAction(config, item, turn), turn.now) == t
  {
  }

  lemma AfterNone(config: WorkerConfig, t: Table, batch: seq<Row>, env: nat -> Turn)
    ensures AfterItems(config, t, batch, env, 0) == t
  {
  }

  lemma {:induction false} AfterOneMore(config: WorkerConfig, t: Table, batch: seq<Row>, env: nat -> Turn, n: nat)
    requires n < |batch|
    ensures AfterItems(config, t, batch, env, n + 1) ==
            Carry(AfterItems(config, t, batch, env, n), batch[n].id, TurnAction(config, batch[n], env(n)), env(n).now)
  {
    hide Carry, TurnAction;
  }

  lemma FetchedBatch(t: Table, now: Instant, limit: int, batch: seq<Row>)
    requires IsBatch(t, now, limit, IdsOf(batch))
    requires forall i | 0 <= i < |batch| :: batch[i].id in t.rows && batch[i] == t.rows[batch[i].id]
    ensures Fetched(SetInFlight(t, IdsOf(batch)), batch)
  {
  }

  lemma TickOutcome(config: WorkerConfig, start: Table, batch: seq<Row>, env: nat -> Turn, n: nat)
    requires n <= |batch| && Fetched(SetInFlight(start, IdsOf(batch)), batch)
    requires forall i | 0 <= i < |batch| :: batch[i].id in start.rows && batch[i] == start.rows[batch[i].id]
    requires forall k: nat | k < n :: !TurnAction(config, batch[k], env(k)).Escape?
    ensures var r := AfterItems(config, SetInFlight(start, IdsOf(batch)), batch, env, n);
            && (forall id :: id in InFlightIds(r) <==> id in InFlightIds(start) || Among(batch, n, |batch|, id))
            && (forall i | 0 <= i < n ::
                  batch[i].id in r.rows
                  && Remaining(config, r.rows[batch[i].id]) + 1 <= Remaining(config, start.rows[batch[i].id]))
  {
    hide *;
    var r := AfterItems(config, SetInFlight(start, IdsOf(batch)), batch, env, n);
    PrefixProcessed(config, SetInFlight(start, IdsOf(batch)), batch, env, n);
    FetchedPending(SetInFlight(start, IdsOf(batch)), batch);
    ProcessedSpent(config, start, batch, n, r);
    forall id
      ensures id in InFlightIds(r) <==> id in InFlightIds(start) || Among(batch, n, |batch|, id)
    {
      FlightLeft(config, start, batch, r, n, id);
    }
  }

  lemma FetchedPending(t: Table, batch: seq<Row>)
    requires Fetched(t, batch)
    ensures forall i | 0 <= i < |batch| :: batch[i].state.Pending?
    ensures forall i, j | 0 <= i < j < |batch| :: batch[i].id != batch[j].id
  {
  }

  lemma ProcessedSpent(config: WorkerConfig, start: Table, batch: seq<Row>, n: nat, r: Table)
    requires n <= |batch| && Processed(config, SetInFlight(start, IdsOf(batch)), batch, n, r)
    requires forall i | 0 <= i < |batch| ::
               batch[i].state.Pending? && batch[i].id in start.rows && batch[i] == start.rows[batch[i].id]
    ensures forall i | 0 <= i < n ::
              batch[i].id in r.rows
              && Remaining(config, r.rows[batch[i].id]) + 1 <= Remaining(config, start.rows[batch[i].id])
  {
    hide Among;
  }

  lemma FlightLeft(config: WorkerConfig, start: Table, batch: seq<Row>, r: Table, n: nat, id: nat)
    requires n <= |batch| && Processed(config, SetInFlight(start, IdsOf(batch)), batch, n, r)
    requires forall i | 0 <= i < |batch| ::
               batch[i].state.Pending? && batch[i].id in start.rows && batch[i] == start.rows[batch[i].id]
    requires forall i, j | 0 <= i < j < |batch| :: batch[i].id != batch[j].id
    ensures id in InFlightIds(r) <==> id in InFlightIds(start) || Among(batch, n, |batch|, id)
  {
    var ids := IdsOf(batch);
    hide Remaining;
    if Among(batch, n, |batch|, id) {
      var j :| n <= j < |batch| && batch[j].id == id;
      assert ids[j] == id;
      assert !Among(batch, 0, n, id);
    } else if id in start.rows && !Among(batch, 0, n, id) {
      assert forall i | 0 <= i < |batch| :: ids[i] == batch[i].id && batch[i].id != id;
      assert id !in ids;
    }
  }
}
