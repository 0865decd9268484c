/** Progress of a single worker: the queue drains, and no due row is passed over for long. */
module Progress {
  import opened Wrappers
  import opened Timestamps
  import opened Table
  import opened WorkerRules
  import opened Delivery
  import opened Custody
  import opened Sums
  import Spacing
  import Address
  import Client

  /** Which rows a measure counts: all, or those other than `id` received no later than `at`. */
  datatype Scope = Everything | Ahead(id: nat, at: Instant)

  predicate InScope(scope: Scope, row: Row) {
    match scope
    case Everything => true
    case Ahead(id, at) => row.id != id && row.receivedAt <= at
  }

  /** The attempts row `id` may still cost. */
  function LoadTerm(cfg: Config, t: Table, scope: Scope, id: nat): nat {
    if id in t.rows && InScope(scope, t.rows[id]) then Remaining(cfg.worker, t.rows[id]) else 0
  }

  /** The same, less the attempt a row in flight is already having. */
  function SlackTerm(cfg: Config, t: Table, scope: Scope, id: nat): nat {
    if id in t.rows && InScope(scope, t.rows[id]) && t.rows[id].Live()
    then Remaining(cfg.worker, t.rows[id]) - (if t.rows[id].state.InFlight? then 1 else 0)
    else 0
  }

  /** The sum of `max(1, max_attempts - attempt_count)` over the live rows in scope. */
  ghost function Workload(cfg: Config, t: Table, scope: Scope): nat {
    Sum(id => LoadTerm(cfg, t, scope, id), t.nextId)
  }

  ghost function Slack(cfg: Config, t: Table, scope: Scope): nat {
    Sum(id => SlackTerm(cfg, t, scope, id), t.nextId)
  }

  /** The step puts no new row in scope and is not a worker starting over. */
  predicate Quiet(s: Sys, l: Label, scope: Scope) {
    && !l.Start?
    && (l.DataStep? ==> scope.Ahead? && scope.at < Truncate(s.now))
  }

  // ---------------------------------------------------------------- one row, one step

  /** Finishing an item spends at least one of its attempts and lands it. */
  lemma FinishedTerm(cfg: Config, s: Sys, l: Label, s': Sys)
    requires IsStep(cfg, s, l, s') && InCustody(s) && Finishes(l)
    ensures var id := Item(s, l.w).id;
            && id in s.table.rows && s.table.rows[id].state.InFlight? && id in s'.table.rows
            && !s'.table.rows[id].state.InFlight?
            && s'.table.rows[id].id == s.table.rows[id].id
            && s'.table.rows[id].receivedAt == s.table.rows[id].receivedAt
            && Remaining(cfg.worker, s'.table.rows[id]) + 1 <= Remaining(cfg.worker, s.table.rows[id])
  {
    ItemIsHeld(s, l.w);
    assert HoldsBatch(s.table, s.workers[l.w].todo);
    assert HeldRow(s.table, s.workers[l.w].todo[0]);
    hide InCustody, HoldsBatch, Address.ParseRecipient, Client.Receive, IsBatch, ServerAllows, KeyFor;
  }

  predicate Fetches(s: Sys, l: Label, scope: Scope, id: nat) {
    l.Dequeue? && id in l.ids && id in s.table.rows && InScope(scope, s.table.rows[id])
  }

  lemma NewOutOfScope(cfg: Config, s: Sys, l: Label, s': Sys, scope: Scope, id: nat)
    requires IsStep(cfg, s, l, s') && Quiet(s, l, scope) && id !in s.table.rows && id in s'.table.rows
    ensures !InScope(scope, s'.table.rows[id])
  {
    RowAdded(cfg, s, l, s', id);
  }

  lemma SlackTermStep(cfg: Config, s: Sys, l: Label, s': Sys, scope: Scope, id: nat)
    requires IsStep(cfg, s, l, s') && InCustody(s) && Quiet(s, l, scope)
    ensures SlackTerm(cfg, s'.table, scope, id) + (if Fetches(s, l, scope, id) then 1 else 0)
              <= SlackTerm(cfg, s.table, scope, id)
  {
    hide IsStep, InCustody;
    InHand(cfg, s, l, s');
    if id in s'.table.rows {
      if id !in s.table.rows {
        NewOutOfScope(cfg, s, l, s', scope, id);
      } else if Finishes(l) && Item(s, l.w).id == id {
        FinishedTerm(cfg, s, l, s');
      } else {
        RowUnfinished(cfg, s, l, s', id);
      }
    } else if id in s.table.rows {
      RowRemains(cfg, s, l, s', id);
    }
  }

  lemma LoadTermStep(cfg: Config, s: Sys, l: Label, s': Sys, scope: Scope, id: nat)
    requires IsStep(cfg, s, l, s') && InCustody(s) && Quiet(s, l, scope)
    ensures LoadTerm(cfg, s'.table, scope, id) <= LoadTerm(cfg, s.table, scope, id)
    ensures Finishes(l) && Item(s, l.w).id == id && id in s.table.rows && InScope(scope, s.table.rows[id]) ==>
              LoadTerm(cfg, s'.table, scope, id) + 1 <= LoadTerm(cfg, s.table, scope, id)
  {
    hide IsStep, InCustody;
    InHand(cfg, s, l, s');
    if id in s'.table.rows {
      if id !in s.table.rows {
        NewOutOfScope(cfg, s, l, s', scope, id);
      } else if Finishes(l) && Item(s, l.w).id == id {
        FinishedTerm(cfg, s, l, s');
      } else {
        RowUnfinished(cfg, s, l, s', id);
      }
    } else if id in s.table.rows {
      RowRemains(cfg, s, l, s', id);
    }
  }

  // ---------------------------------------------------------------- the sums, one step

  lemma Unallocated(cfg: Config, t: Table, scope: Scope, id: nat)
    requires WellFormed(t) && id >= t.nextId
    ensures SlackTerm(cfg, t, scope, id) == 0 && LoadTerm(cfg, t, scope, id) == 0
  {
  }

  /** Sums may be taken over any range that covers the table. */
  lemma {:induction false} WiderSum(cfg: Config, t: Table, scope: Scope, n: nat)
    requires WellFormed(t) && t.nextId <= n
    ensures Sum(id => SlackTerm(cfg, t, scope, id), n) == Slack(cfg, t, scope)
    ensures Sum(id => LoadTerm(cfg, t, scope, id), n) == Workload(cfg, t, scope)
  {
    if t.nextId < n {
      WiderSum(cfg, t, scope, n - 1);
      Unallocated(cfg, t, scope, n - 1);
    }
  }

  /** No quiet step raises the slack, and a fetch lowers it by the rows in scope it takes. */
  lemma SlackStep(cfg: Config, s: Sys, l: Label, s': Sys, scope: Scope, taken: set<nat>)
    requires IsStep(cfg, s, l, s') && InCustody(s) && Quiet(s, l, scope)
    requires forall id | id in taken :: Fetches(s, l, scope, id)
    ensures Slack(cfg, s'.table, scope) + |taken| <= Slack(cfg, s.table, scope)
  {
    StepKeepsTable(cfg, s, l);
    var n := s'.table.nextId;
    WiderSum(cfg, s.table, scope, n);
    var f: nat -> nat := id => SlackTerm(cfg, s'.table, scope, id);
    var g: nat -> nat := id => SlackTerm(cfg, s.table, scope, id);
    assert forall id | id in taken :: id < n;
    forall id: nat
      ensures f(id) + (if id in taken then 1 else 0) <= g(id)
    {
      SlackTermStep(cfg, s, l, s', scope, id);
    }
    hide IsStep, InCustody, Quiet;
    SumFallsOn(f, g, n, taken);
  }

  lemma LoadStep(cfg: Config, s: Sys, l: Label, s': Sys, scope: Scope)
    requires IsStep(cfg, s, l, s') && InCustody(s) && Quiet(s, l, scope)
    ensures Workload(cfg, s'.table, scope) <= Workload(cfg, s.table, scope)
    ensures Finishes(l) && scope.Everything? ==> Workload(cfg, s'.table, scope) + 1 <= Workload(cfg, s.table, scope)
  {
    StepKeepsTable(cfg, s, l);
    var n := s'.table.nextId;
    WiderSum(cfg, s.table, scope, n);
    var f: nat -> nat := id => LoadTerm(cfg, s'.table, scope, id);
    var g: nat -> nat := id => LoadTerm(cfg, s.table, scope, id);
    forall id: nat
      ensures f(id) <= g(id)
    {
      LoadTermStep(cfg, s, l, s', scope, id);
    }
    if Finishes(l) && scope.Everything? {
      FinishedTerm(cfg, s, l, s');
      LoadTermStep(cfg, s, l, s', scope, Item(s, l.w).id);
      SumFallsAt(f, g, n, Item(s, l.w).id, 1);
    } else {
      SumMonotone(f, g, n);
    }
  }

  // ---------------------------------------------------------------- windows of a run

  /** Steps `p` up to `q` of the run are quiet. */
  predicate QuietWindow(ss: seq<Sys>, ls: seq<Label>, p: nat, q: nat, scope: Scope) {
    p <= q <= |ls| && |ss| == |ls| + 1 && forall i | p <= i < q :: Quiet(ss[i], ls[i], scope)
  }

  function FinishedItems(ls: seq<Label>, p: nat, q: nat): nat
    requires q <= |ls|
  {
    if q <= p then 0 else FinishedItems(ls, p, q - 1) + if Finishes(ls[q - 1]) then 1 else 0
  }

  function Requests(ls: seq<Label>, p: nat, q: nat): nat
    requires q <= |ls|
  {
    if q <= p then 0 else Requests(ls, p, q - 1) + if ls[q - 1].Send? then 1 else 0
  }

  /** The number of ticks begun. */
  function Ticks(ls: seq<Label>, p: nat, q: nat): nat
    requires q <= |ls|
  {
    if q <= p then 0 else Ticks(ls, p, q - 1) + if ls[q - 1].Dequeue? then 1 else 0
  }

  lemma LoadAt(cfg: Config, ss: seq<Sys>, ls: seq<Label>, i: nat, scope: Scope)
    requires IsRun(cfg, ss, ls) && OrderlyRun(ss, ls) && Init(ss[0]) && i < |ls| && Quiet(ss[i], ls[i], scope)
    ensures Workload(cfg, ss[i + 1].table, scope) <= Workload(cfg, ss[i].table, scope)
    ensures Finishes(ls[i]) && scope.Everything? ==>
              Workload(cfg, ss[i + 1].table, scope) + 1 <= Workload(cfg, ss[i].table, scope)
  {
    StepOfRun(cfg, ss, ls, i);
    BatchesDisjoint(cfg, ss, ls, i);
    hide IsStep, InCustody, Quiet;
    LoadStep(cfg, ss[i], ls[i], ss[i + 1], scope);
  }

  /** The drain measure, for any number of workers: while nothing is enqueued and no worker
      starts over, every item that is finished lowers the sum of remaining attempts, so at
      most that many items can be finished. */
  lemma {:induction false} EveryItemDrains(cfg: Config, ss: seq<Sys>, ls: seq<Label>, p: nat, q: nat)
    requires IsRun(cfg, ss, ls) && OrderlyRun(ss, ls) && Init(ss[0])
    requires QuietWindow(ss, ls, p, q, Everything)
    ensures Workload(cfg, ss[q].table, Everything) + FinishedItems(ls, p, q) <= Workload(cfg, ss[p].table, Everything)
    decreases q
  {
    hide Workload, Quiet, IsRun, OrderlyRun, Init;
    if p < q {
      EveryItemDrains(cfg, ss, ls, p, q - 1);
      assert Quiet(ss[q - 1], ls[q - 1], Everything);
      LoadAt(cfg, ss, ls, q - 1, Everything);
    }
  }

  // ---------------------------------------------------------------- the bound on sends

  predicate Answered(s: Sys, w: nat) {
    HasAnswer(s, w)
  }

  lemma AnsweredStep(cfg: Config, s: Sys, l: Label, s': Sys, w: nat)
    requires IsStep(cfg, s, l, s') && ByWorker(l, w) && !l.Crash?
    ensures if l.Send? then !Answered(s, w) && Answered(s', w)
            else if l.Settle? then Answered(s, w) && !Answered(s', w)
            else Answered(s', w) ==> Answered(s, w)
    ensures Answered(s, w) && !l.Settle? ==> Answered(s', w)
  {
    hide Address.ParseRecipient, Client.Receive, KeyFor, ServerAllows, RecordsAfter, Decide, IsBatch, Prunable;
  }

  lemma AnsweredIsLive(cfg: Config, s: Sys, w: nat)
    requires WellFormed(s.table) && InCustody(s) && Answered(s, w)
    ensures Workload(cfg, s.table, Everything) >= 1
  {
    ItemIsHeld(s, w);
    var id := Item(s, w).id;
    HeldIsInFlight(s, w, id);
    hide InCustody;
    SumAtLeastTerm(id => LoadTerm(cfg, s.table, Everything, id), s.table.nextId, id);
  }

  lemma AnsweredAt(cfg: Config, ss: seq<Sys>, ls: seq<Label>, w: nat, i: nat)
    requires IsRun(cfg, ss, ls) && SingleWorker(ls, w) && i < |ls| && !ls[i].Crash?
    ensures if ls[i].Send? then !Answered(ss[i], w) && Answered(ss[i + 1], w)
            else if ls[i].Settle? then Answered(ss[i], w) && !Answered(ss[i + 1], w)
            else Answered(ss[i], w) <==> Answered(ss[i + 1], w)
  {
    StepOfRun(cfg, ss, ls, i);
    assert ByWorker(ls[i], w);
    hide IsStep, Answered;
    AnsweredStep(cfg, ss[i], ls[i], ss[i + 1], w);
  }

  lemma SingleIsOrderly(cfg: Config, ss: seq<Sys>, ls: seq<Label>, w: nat)
    requires IsRun(cfg, ss, ls) && SingleWorker(ls, w) && Init(ss[0])
    ensures OrderlyRun(ss, ls)
  {
    forall i | 0 <= i < |ls|
      ensures Orderly(ss[i], ls[i])
    {
      SingleWorkerOwnsFlight(cfg, ss, ls, w, i);
    }
  }

  lemma {:induction false} RequestsPaid(cfg: Config, ss: seq<Sys>, ls: seq<Label>, w: nat, p: nat, q: nat)
    requires IsRun(cfg, ss, ls) && SingleWorker(ls, w) && OrderlyRun(ss, ls) && Init(ss[0])
    requires QuietWindow(ss, ls, p, q, Everything) && forall i | p <= i < q :: !ls[i].Crash?
    ensures Workload(cfg, ss[q].table, Everything) + Requests(ls, p, q)
              <= Workload(cfg, ss[p].table, Everything) + (if Answered(ss[q], w) then 1 else 0)
    decreases q
  {
    hide Workload, Answered, Quiet, IsRun, SingleWorker, OrderlyRun, Init;
    if p < q {
      RequestsPaid(cfg, ss, ls, w, p, q - 1);
      assert Quiet(ss[q - 1], ls[q - 1], Everything);
      LoadAt(cfg, ss, ls, q - 1, Everything);
      AnsweredAt(cfg, ss, ls, w, q - 1);
    }
  }

  /** While a single worker runs without a crash and nothing is enqueued, it makes at most as
      many requests as the queue had attempts left. */
  lemma RequestsBounded(cfg: Config, ss: seq<Sys>, ls: seq<Label>, w: nat, p: nat, q: nat)
    requires IsRun(cfg, ss, ls) && SingleWorker(ls, w) && Init(ss[0])
    requires QuietWindow(ss, ls, p, q, Everything) && forall i | p <= i < q :: !ls[i].Crash?
    ensures Requests(ls, p, q) <= Workload(cfg, ss[p].table, Everything)
  {
    SingleIsOrderly(cfg, ss, ls, w);
    RequestsPaid(cfg, ss, ls, w, p, q);
    if Answered(ss[q], w) {
      RunKeepsTable(cfg, ss, ls, q);
      BatchesDisjoint(cfg, ss, ls, q);
      AnsweredIsLive(cfg, ss[q], w);
    }
  }

  // ---------------------------------------------------------------- draining

  predicate AnyLive(t: Table) {
    exists id :: id in t.rows && t.rows[id].Live()
  }

  predicate AnyDue(s: Sys) {
    exists id :: id in s.table.rows && DueIn(s.table, s.now, id)
  }

  /** A tick that found a row due, or nothing left to do. */
  predicate DueTick(s: Sys, l: Label) {
    l.Dequeue? && (AnyDue(s) || !AnyLive(s.table))
  }

  function DueTicks(ss: seq<Sys>, ls: seq<Label>, p: nat, q: nat): nat
    requires q <= |ls| <= |ss|
  {
    if q <= p then 0 else DueTicks(ss, ls, p, q - 1) + if DueTick(ss[q - 1], ls[q - 1]) then 1 else 0
  }

  /** With nothing in flight, the slack is the load, and zero slack means nothing is live. */
  lemma IdleSlack(cfg: Config, t: Table, scope: Scope)
    requires WellFormed(t) && InFlightIds(t) == {}
    ensures Slack(cfg, t, scope) == Workload(cfg, t, scope)
    ensures scope.Everything? && Slack(cfg, t, scope) == 0 ==> !AnyLive(t)
  {
    var f: nat -> nat := id => SlackTerm(cfg, t, scope, id);
    forall id: nat
      ensures SlackTerm(cfg, t, scope, id) == LoadTerm(cfg, t, scope, id)
    {
      assert id !in InFlightIds(t);
    }
    SumEqual(f, id => LoadTerm(cfg, t, scope, id), t.nextId);
    if scope.Everything? && AnyLive(t) {
      var id :| id in t.rows && t.rows[id].Live();
      assert id !in InFlightIds(t);
      SumAtLeastTerm(f, t.nextId, id);
    }
  }

  lemma SlackAtMostWorkload(cfg: Config, t: Table, scope: Scope)
    ensures Slack(cfg, t, scope) <= Workload(cfg, t, scope)
  {
    SumMonotone(id => SlackTerm(cfg, t, scope, id), id => LoadTerm(cfg, t, scope, id), t.nextId);
  }

  /** A tick that finds a row due takes one. */
  lemma DueTickTakes(cfg: Config, s: Sys, l: Label)
    requires Enabled(cfg, s, l) && l.Dequeue? && cfg.worker.batchSize != 0 && AnyDue(s)
    ensures l.ids != [] && Fetches(s, l, Everything, l.ids[0])
  {
    hide Due;
    if l.ids != [] {
      assert DueIn(s.table, s.now, l.ids[0]);
    }
  }

  lemma TickDrains(cfg: Config, ss: seq<Sys>, ls: seq<Label>, i: nat)
    requires IsRun(cfg, ss, ls) && OrderlyRun(ss, ls) && Init(ss[0]) && cfg.worker.batchSize != 0
    requires i < |ls| && Quiet(ss[i], ls[i], Everything)
    ensures Slack(cfg, ss[i + 1].table, Everything) + (if ls[i].Dequeue? && AnyDue(ss[i]) then 1 else 0)
              <= Slack(cfg, ss[i].table, Everything)
  {
    StepOfRun(cfg, ss, ls, i);
    BatchesDisjoint(cfg, ss, ls, i);
    var taken: set<nat> := {};
    if ls[i].Dequeue? && AnyDue(ss[i]) {
      DueTickTakes(cfg, ss[i], ls[i]);
      taken := {ls[i].ids[0]};
    }
    hide IsStep, InCustody, Quiet, AnyDue;
    SlackStep(cfg, ss[i], ls[i], ss[i + 1], Everything, taken);
  }

  /** A quiet step brings no row to life. */
  lemma NothingLiveStays(cfg: Config, s: Sys, l: Label, s': Sys)
    requires IsStep(cfg, s, l, s') && InCustody(s) && WellFormed(s.table) && Quiet(s, l, Everything) && !AnyLive(s.table)
    ensures !AnyLive(s'.table)
  {
    forall id | id in s'.table.rows
      ensures !s'.table.rows[id].Live()
    {
      if id in s.table.rows {
        FinishedRowsRest(cfg, s, l, s', id);
      } else {
        RowAdded(cfg, s, l, s', id);
      }
    }
  }

  lemma NothingLiveAt(cfg: Config, ss: seq<Sys>, ls: seq<Label>, i: nat)
    requires IsRun(cfg, ss, ls) && OrderlyRun(ss, ls) && Init(ss[0]) && i < |ls|
    requires Quiet(ss[i], ls[i], Everything) && !AnyLive(ss[i].table)
    ensures !AnyLive(ss[i + 1].table)
  {
    StepOfRun(cfg, ss, ls, i);
    BatchesDisjoint(cfg, ss, ls, i);
    RunKeepsTable(cfg, ss, ls, i);
    hide IsStep, InCustody, Quiet, AnyLive, WellFormed;
    NothingLiveStays(cfg, ss[i], ls[i], ss[i + 1]);
  }

  /** Until nothing is left, every due tick lowers the slack, and every other quiet step leaves
      it or lowers it. */
  lemma {:induction false} TicksDrain(cfg: Config, ss: seq<Sys>, ls: seq<Label>, p: nat, q: nat)
    requires IsRun(cfg, ss, ls) && OrderlyRun(ss, ls) && Init(ss[0]) && cfg.worker.batchSize != 0
    requires QuietWindow(ss, ls, p, q, Everything)
    ensures || !AnyLive(ss[q].table)
            || Slack(cfg, ss[q].table, Everything) + DueTicks(ss, ls, p, q) <= Slack(cfg, ss[p].table, Everything)
    decreases q
  {
    hide Slack, Quiet, AnyDue, AnyLive, IsRun, OrderlyRun, Init;
    if p < q {
      TicksDrain(cfg, ss, ls, p, q - 1);
      assert Quiet(ss[q - 1], ls[q - 1], Everything);
      if AnyLive(ss[q - 1].table) {
        TickDrains(cfg, ss, ls, q - 1);
      } else {
        NothingLiveAt(cfg, ss, ls, q - 1);
      }
    }
  }

  /** After as many due ticks as the queue had attempts left, every row is delivered or
      dead-lettered, however many ticks in between found live rows but none due. */
  lemma QueueDrains(cfg: Config, ss: seq<Sys>, ls: seq<Label>, w: nat, p: nat, q: nat)
    requires IsRun(cfg, ss, ls) && SingleWorker(ls, w) && Init(ss[0]) && cfg.worker.batchSize != 0
    requires QuietWindow(ss, ls, p, q, Everything)
    requires PhaseOf(ss[p], w).Idle? && PhaseOf(ss[q], w).Idle?
    requires DueTicks(ss, ls, p, q) >= Workload(cfg, ss[p].table, Everything)
    ensures forall id | id in ss[q].table.rows ::
              ss[q].table.rows[id].state.Delivered? || ss[q].table.rows[id].state.DeadLetter?
  {
    SingleIsOrderly(cfg, ss, ls, w);
    TicksDrain(cfg, ss, ls, p, q);
    SingleWorkerOwnsFlight(cfg, ss, ls, w, p);
    SingleWorkerOwnsFlight(cfg, ss, ls, w, q);
    RunKeepsTable(cfg, ss, ls, p);
    RunKeepsTable(cfg, ss, ls, q);
    hide IsRun, InCustody, OwnsFlight, DueTicks;
    IdleSlack(cfg, ss[p].table, Everything);
    IdleSlack(cfg, ss[q].table, Everything);
    hide Slack, Workload;
    assert !AnyLive(ss[q].table);
    assert forall id | id in ss[q].table.rows :: !ss[q].table.rows[id].Live();
  }

  // ---------------------------------------------------------------- no starvation

  /** A tick that passes over a due row is full, and everything in it was received no later. */
  lemma PassedOver(cfg: Config, s: Sys, l: Label, id: nat)
    requires WellFormed(s.table) && Enabled(cfg, s, l) && l.Dequeue? && cfg.worker.batchSize >= 1
    requires id in s.table.rows && DueIn(s.table, s.now, id) && id !in l.ids
    ensures |l.ids| == cfg.worker.batchSize
    ensures forall i | 0 <= i < |l.ids| :: Fetches(s, l, Ahead(id, s.table.rows[id].receivedAt), l.ids[i])
  {
    forall i | 0 <= i < |l.ids|
      ensures Fetches(s, l, Ahead(id, s.table.rows[id].receivedAt), l.ids[i])
    {
      assert DueIn(s.table, s.now, l.ids[i]);
    }
  }

  /** A pending row that is not fetched stays as it is. */
  lemma PendingStays(cfg: Config, s: Sys, l: Label, s': Sys, id: nat)
    requires IsStep(cfg, s, l, s') && InCustody(s) && !l.Start?
    requires id in s.table.rows && s.table.rows[id].state.Pending? && !(l.Dequeue? && id in l.ids)
    ensures id in s'.table.rows && s'.table.rows[id] == s.table.rows[id]
  {
    RowRemains(cfg, s, l, s', id);
    if Finishes(l) {
      ItemIsHeld(s, l.w);
      HeldIsInFlight(s, l.w, Item(s, l.w).id);
    }
    RowUnfinished(cfg, s, l, s', id);
  }

  lemma TruncateGrows(a: Instant, b: Instant)
    requires a <= b
    ensures Truncate(a) <= Truncate(b)
  {
  }

  /** Row `id` is as it was, and due. */
  predicate Waiting(s: Sys, id: nat, row: Row) {
    id in s.table.rows && s.table.rows[id] == row && Due(row, s.now)
  }

  /** No row that arrives between `p` and `q` shares or precedes this arrival time. */
  predicate NoneBefore(ss: seq<Sys>, ls: seq<Label>, p: nat, q: nat, at: Instant)
    requires q <= |ls| <= |ss|
  {
    forall i | p <= i < q && ls[i].DataStep? :: at < Truncate(ss[i].now)
  }

  lemma WaitingStep(cfg: Config, ss: seq<Sys>, ls: seq<Label>, i: nat, id: nat, row: Row)
    requires IsRun(cfg, ss, ls) && OrderlyRun(ss, ls) && Spacing.ForwardRun(ss, ls) && Init(ss[0])
    requires i < |ls| && Waiting(ss[i], id, row) && !ls[i].Start? && !(ls[i].Dequeue? && id in ls[i].ids)
    ensures Waiting(ss[i + 1], id, row)
  {
    StepOfRun(cfg, ss, ls, i);
    BatchesDisjoint(cfg, ss, ls, i);
    assert Spacing.MonotoneClock(ss[i], ls[i]);
    PendingStays(cfg, ss[i], ls[i], ss[i + 1], id);
    Spacing.ClockForward(cfg, ss[i], ls[i], ss[i + 1]);
    TruncateGrows(ss[i].now, ss[i + 1].now);
    hide IsStep, InCustody, Truncate;
  }

  lemma WaitingTick(cfg: Config, ss: seq<Sys>, ls: seq<Label>, i: nat, id: nat, row: Row)
    requires IsRun(cfg, ss, ls) && OrderlyRun(ss, ls) && Init(ss[0]) && cfg.worker.batchSize >= 1
    requires i < |ls| && Waiting(ss[i], id, row) && !ls[i].Start? && !(ls[i].Dequeue? && id in ls[i].ids)
    requires ls[i].DataStep? ==> row.receivedAt < Truncate(ss[i].now)
    ensures Slack(cfg, ss[i + 1].table, Ahead(id, row.receivedAt)) + (if ls[i].Dequeue? then cfg.worker.batchSize else 0)
              <= Slack(cfg, ss[i].table, Ahead(id, row.receivedAt))
  {
    StepOfRun(cfg, ss, ls, i);
    BatchesDisjoint(cfg, ss, ls, i);
    var taken: set<nat> := {};
    if ls[i].Dequeue? {
      PassedOver(cfg, ss[i], ls[i], id);
      taken := Ids(ls[i].ids);
      SetOfDistinct(ls[i].ids);
    }
    assert Quiet(ss[i], ls[i], Ahead(id, row.receivedAt));
    hide IsStep, InCustody, Quiet;
    SlackStep(cfg, ss[i], ls[i], ss[i + 1], Ahead(id, row.receivedAt), taken);
  }

  lemma {:induction false} PassesPaid(cfg: Config, ss: seq<Sys>, ls: seq<Label>, p: nat, q: nat, id: nat, row: Row)
    requires IsRun(cfg, ss, ls) && OrderlyRun(ss, ls) && Spacing.ForwardRun(ss, ls) && Init(ss[0])
    requires cfg.worker.batchSize >= 1 && p <= q <= |ls| && Waiting(ss[p], id, row)
    requires forall i | p <= i < q :: !ls[i].Start? && !(ls[i].Dequeue? && id in ls[i].ids)
    requires NoneBefore(ss, ls, p, q, row.receivedAt)
    ensures Waiting(ss[q], id, row)
    ensures Slack(cfg, ss[q].table, Ahead(id, row.receivedAt)) + Ticks(ls, p, q) * cfg.worker.batchSize
              <= Slack(cfg, ss[p].table, Ahead(id, row.receivedAt))
    decreases q
  {
    hide Slack, Waiting, IsRun, OrderlyRun, Spacing.ForwardRun, Init;
    if p < q {
      PassesPaid(cfg, ss, ls, p, q - 1, id, row);
      WaitingStep(cfg, ss, ls, q - 1, id, row);
      WaitingTick(cfg, ss, ls, q - 1, id, row);
      OneMoreTick(ls, p, q, cfg.worker.batchSize);
    }
  }

  lemma OneMoreTick(ls: seq<Label>, p: nat, q: nat, b: nat)
    requires p < q <= |ls|
    ensures Ticks(ls, p, q) * b == Ticks(ls, p, q - 1) * b + if ls[q - 1].Dequeue? then b else 0
  {
  }

  /** No starvation. Take a single worker, a clock that never runs back, and a due row such
      that no later arrival shares or precedes its arrival time. Let `W` be the attempts left
      in the other live rows received no later. Then the row is fetched by one of the next
      `W / batch_size + 1` ticks, whatever is enqueued, pruned or answered meanwhile, unless
      the worker is started over first. */
  lemma NoStarvation(cfg: Config, ss: seq<Sys>, ls: seq<Label>, w: nat, p: nat, q: nat, id: nat)
    requires IsRun(cfg, ss, ls) && SingleWorker(ls, w) && Spacing.ForwardRun(ss, ls) && Init(ss[0])
    requires cfg.worker.batchSize >= 1 && p <= q <= |ls|
    requires forall i | p <= i < q :: !ls[i].Start?
    requires id in ss[p].table.rows && DueIn(ss[p].table, ss[p].now, id)
    requires NoneBefore(ss, ls, p, q, ss[p].table.rows[id].receivedAt)
    requires Ticks(ls, p, q) >=
             Workload(cfg, ss[p].table, Ahead(id, ss[p].table.rows[id].receivedAt)) / cfg.worker.batchSize + 1
    ensures exists i :: p <= i < q && ls[i].Dequeue? && id in ls[i].ids
  {
    var row := ss[p].table.rows[id];
    var load := Workload(cfg, ss[p].table, Ahead(id, row.receivedAt));
    if forall i | p <= i < q :: !(ls[i].Dequeue? && id in ls[i].ids) {
      SingleIsOrderly(cfg, ss, ls, w);
      PassesPaid(cfg, ss, ls, p, q, id, row);
      SlackAtMostWorkload(cfg, ss[p].table, Ahead(id, row.receivedAt));
      TooManyTicks(load, cfg.worker.batchSize, Ticks(ls, p, q));
      assert false;
    }
  }

  lemma TooManyTicks(load: nat, b: nat, k: nat)
    requires b >= 1 && k >= load / b + 1
    ensures k * b > load
  {
    assert (load / b + 1) * b > load;
    assert k * b >= (load / b + 1) * b;
  }

  /** So a mail is fetched soon after it is stored: take the step that stores it, at any
      moment of a single worker's life. With `W` the attempts left in the other live rows then,
      one of the next `W / batch_size + 1` ticks fetches it, unless the worker is started over
      first or a later arrival shares its second. */
  lemma StoredIsFetched(cfg: Config, ss: seq<Sys>, ls: seq<Label>, w: nat, p: nat, q: nat)
    requires IsRun(cfg, ss, ls) && SingleWorker(ls, w) && Spacing.ForwardRun(ss, ls) && Init(ss[0])
    requires cfg.worker.batchSize >= 1 && p < q <= |ls|
    requires ls[p].DataStep? && ss[p + 1].table.nextId > ss[p].table.nextId
    requires forall i | p < i < q :: !ls[i].Start?
    requires NoneBefore(ss, ls, p + 1, q, Truncate(ss[p].now))
    requires var id := ss[p].table.nextId;
             Ticks(ls, p + 1, q) >=
             Workload(cfg, ss[p + 1].table, Ahead(id, Truncate(ss[p].now))) / cfg.worker.batchSize + 1
    ensures var id := ss[p].table.nextId;
            exists i :: p < i < q && ls[i].Dequeue? && id in ls[i].ids
  {
    StepOfRun(cfg, ss, ls, p);
    StoredStep(cfg, ss[p], ls[p], ss[p + 1]);
    hide IsStep, IsRun, SingleWorker, Spacing.ForwardRun, Workload;
    NoStarvation(cfg, ss, ls, w, p + 1, q, ss[p].table.nextId);
  }

  /** The row a step adds is due, and arrived now. */
  lemma StoredStep(cfg: Config, s: Sys, l: Label, s': Sys)
    requires IsStep(cfg, s, l, s') && l.DataStep? && s'.table.nextId > s.table.nextId
    ensures var id := s.table.nextId;
            DueIn(s'.table, s'.now, id) && s'.table.rows[id].receivedAt == Truncate(s.now)
  {
    StepTable(cfg, s, l, s');
    hide IsStep, Next, Enabled, MailOf;
    var mail := MailOf(cfg, s, l);
    assert mail.Some? && !HasKey(s.table, mail.value.key);
    StoredIsDue(s.table, mail.value, s.now, s'.now);
  }
}
