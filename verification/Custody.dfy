/** Who holds an in_flight row: batches, orphans of crashed workers, nobody else. */
module Custody {
  import opened Wrappers
  import opened Timestamps
  import opened Table
  import opened WorkerRules
  import opened Delivery
  import Client
  import Address

  /** Requeueing touches every in_flight row, so a worker may only start while no other
      holds a batch. */
  predicate Orderly(s: Sys, l: Label) {
    l.Start? ==> forall v | v in s.workers :: !s.workers[v].Busy?
  }

  predicate OrderlyRun(ss: seq<Sys>, ls: seq<Label>) {
    |ss| == |ls| + 1 && forall i | 0 <= i < |ls| :: Orderly(ss[i], ls[i])
  }

  /** Row `item.id` is in flight and otherwise as the worker remembers it. */
  predicate HeldRow(t: Table, item: Row) {
    item.state.Pending? && item.id in t.rows && t.rows[item.id] == item.(state := InFlight)
  }

  predicate HoldsBatch(t: Table, todo: seq<Row>) {
    && todo != []
    && (forall i | 0 <= i < |todo| :: HeldRow(t, todo[i]))
    && (forall i, j | 0 <= i < j < |todo| :: todo[i].id != todo[j].id)
  }

  predicate Holds(phase: Phase, id: nat) {
    phase.Busy? && exists i :: 0 <= i < |phase.todo| && phase.todo[i].id == id
  }

  predicate Held(s: Sys, id: nat) {
    exists w :: w in s.workers && Holds(s.workers[w], id)
  }

  /** Every held row is in flight just as it was fetched, and no row is held twice. */
  ghost predicate InCustody(s: Sys) {
    && (forall w | w in s.workers && s.workers[w].Busy? :: HoldsBatch(s.table, s.workers[w].todo))
    && (forall v, w, id | v in s.workers && w in s.workers && Holds(s.workers[v], id) && Holds(s.workers[w], id) ::
          v == w)
  }

  lemma InHand(cfg: Config, s: Sys, l: Label, s': Sys)
    requires IsStep(cfg, s, l, s')
    ensures Finishes(l) ==> AtItem(s, l.w) || HasAnswer(s, l.w)
  {
  }

  /** A step leaves a row it does not finish alone, fetches it, or puts it back. */
  lemma RowUnfinished(cfg: Config, s: Sys, l: Label, s': Sys, id: nat)
    requires IsStep(cfg, s, l, s') && id in s.table.rows && id in s'.table.rows
    requires Finishes(l) ==> Item(s, l.w).id != id
    ensures if l.Dequeue? && id in l.ids
            then Due(s.table.rows[id], s.now) && s'.table.rows[id] == s.table.rows[id].(state := InFlight)
            else s'.table.rows[id] == if l.Start? then Requeued(s.table.rows[id]) else s.table.rows[id]
  {
    StepTable(cfg, s, l, s');
    if Finishes(l) {
      StatementOfFinish(cfg, s, l);
      CarryRow(s.table, Item(s, l.w).id, ActionOf(cfg, s, l).value, s.now, id);
    }
    hide Next, IsStep, MailOf, Verdict, Truncate, Prunable, HasKey, Address.ParseRecipient, ServerAllows, Carry;
    if l.Dequeue? && id in l.ids {
      var i :| 0 <= i < |l.ids| && l.ids[i] == id;
      assert DueIn(s.table, s.now, l.ids[i]);
    }
    hide Enabled, IsBatch;
  }

  lemma BatchStaysHeld(cfg: Config, s: Sys, l: Label, s': Sys, w: nat)
    requires IsStep(cfg, s, l, s') && Orderly(s, l) && InCustody(s)
    requires w in s.workers && s.workers[w].Busy? && w in s'.workers && s'.workers[w] == s.workers[w]
    ensures HoldsBatch(s'.table, s'.workers[w].todo)
  {
    var todo := s.workers[w].todo;
    forall i | 0 <= i < |todo|
      ensures HeldRow(s'.table, todo[i])
    {
      RowStaysHeld(cfg, s, l, s', w, i);
    }
    hide IsStep, HeldRow, Orderly;
  }

  lemma RowStaysHeld(cfg: Config, s: Sys, l: Label, s': Sys, w: nat, i: nat)
    requires IsStep(cfg, s, l, s') && Orderly(s, l) && InCustody(s)
    requires w in s.workers && s.workers[w].Busy? && w in s'.workers && s'.workers[w] == s.workers[w]
    requires i < |s.workers[w].todo|
    ensures HeldRow(s'.table, s.workers[w].todo[i])
  {
    var item := s.workers[w].todo[i];
    HeldItem(s, w, i);
    if Finishes(l) {
      NotInHand(cfg, s, l, s', w, i);
    }
    assert !l.Start?;
    hide InCustody;
    RowRemains(cfg, s, l, s', item.id);
    RowUnfinished(cfg, s, l, s', item.id);
    DueIsPending(s, item.id);
    hide IsStep;
  }

  lemma HeldItem(s: Sys, w: nat, i: nat)
    requires InCustody(s) && w in s.workers && s.workers[w].Busy? && i < |s.workers[w].todo|
    ensures HeldRow(s.table, s.workers[w].todo[i]) && Holds(s.workers[w], s.workers[w].todo[i].id)
  {
    assert HoldsBatch(s.table, s.workers[w].todo);
  }

  lemma DueIsPending(s: Sys, id: nat)
    requires id in s.table.rows && s.table.rows[id].state.InFlight?
    ensures !Due(s.table.rows[id], s.now)
  {
  }

  /** The item a worker finishes is not another worker's. */
  lemma NotInHand(cfg: Config, s: Sys, l: Label, s': Sys, w: nat, i: nat)
    requires IsStep(cfg, s, l, s') && InCustody(s) && Finishes(l)
    requires w in s.workers && s.workers[w].Busy? && w in s'.workers && s'.workers[w] == s.workers[w]
    requires i < |s.workers[w].todo|
    ensures AtItem(s, l.w) || HasAnswer(s, l.w)
    ensures Item(s, l.w).id != s.workers[w].todo[i].id
  {
    InHand(cfg, s, l, s');
    ItemIsHeld(s, l.w);
    WorkerMoved(cfg, s, l, s');
    HeldItem(s, w, i);
    hide IsStep, HoldsBatch;
  }

  lemma ItemIsHeld(s: Sys, w: nat)
    requires AtItem(s, w) || HasAnswer(s, w)
    ensures w in s.workers && Holds(s.workers[w], Item(s, w).id)
  {
  }

  /** Finishing an item changes the phase of its worker. */
  lemma WorkerMoved(cfg: Config, s: Sys, l: Label, s': Sys)
    requires IsStep(cfg, s, l, s') && Finishes(l)
    ensures l.w in s.workers && l.w in s'.workers && s'.workers[l.w] != s.workers[l.w]
  {
    var todo := s.workers[l.w].todo;
    assert |todo| > 1 ==> |todo[1..]| != |todo|;
  }

  lemma TailStaysHeld(cfg: Config, s: Sys, l: Label, s': Sys, w: nat)
    requires IsStep(cfg, s, l, s') && InCustody(s)
    requires Finishes(l) && l.w == w && w in s.workers && |PhaseOf(s, w).todo| > 1
    ensures HoldsBatch(s'.table, s.workers[w].todo[1..])
  {
    var todo := s.workers[w].todo;
    assert HoldsBatch(s.table, todo);
    var tail := todo[1..];
    forall i | 0 <= i < |tail|
      ensures HeldRow(s'.table, tail[i])
    {
      assert tail[i] == todo[i + 1];
      assert HeldRow(s.table, todo[i + 1]);
      RowRemains(cfg, s, l, s', todo[i + 1].id);
      RowUnfinished(cfg, s, l, s', todo[i + 1].id);
    }
  }

  lemma FetchedIsHeld(cfg: Config, s: Sys, l: Label, s': Sys)
    requires IsStep(cfg, s, l, s') && l.Dequeue? && l.ids != []
    ensures HoldsBatch(s'.table, Snapshots(s.table, l.ids))
  {
    var items := Snapshots(s.table, l.ids);
    forall i | 0 <= i < |items|
      ensures HeldRow(s'.table, items[i])
    {
      assert DueIn(s.table, s.now, l.ids[i]);
      assert s.table.rows[l.ids[i]].id == l.ids[i];
    }
    forall i, j | 0 <= i < j < |items|
      ensures items[i].id != items[j].id
    {
      assert s.table.rows[l.ids[i]].id == l.ids[i] && s.table.rows[l.ids[j]].id == l.ids[j];
    }
  }

  lemma BatchesHeld(cfg: Config, s: Sys, l: Label, s': Sys, w: nat)
    requires IsStep(cfg, s, l, s') && Orderly(s, l) && InCustody(s)
    requires w in s'.workers && s'.workers[w].Busy?
    ensures HoldsBatch(s'.table, s'.workers[w].todo)
  {
    WorkerStep(cfg, s, l, s', w);
    if w in s.workers && s'.workers[w] == s.workers[w] {
      BatchStaysHeld(cfg, s, l, s', w);
    } else if l.Dequeue? {
      FetchedIsHeld(cfg, s, l, s');
    } else if l.Send? {
      assert HoldsBatch(s.table, s.workers[w].todo);
      assert s'.table == s.table;
    } else {
      TailStaysHeld(cfg, s, l, s', w);
    }
  }

  /** A row held after a step was held by the same worker before, or was just fetched. */
  lemma HeldBefore(cfg: Config, s: Sys, l: Label, s': Sys, w: nat, id: nat)
    requires IsStep(cfg, s, l, s') && w in s'.workers && Holds(s'.workers[w], id)
    ensures || (w in s.workers && Holds(s.workers[w], id))
            || (l.Dequeue? && l.w == w && id in l.ids && DueIn(s.table, s.now, id))
  {
    WorkerStep(cfg, s, l, s', w);
    var i :| 0 <= i < |s'.workers[w].todo| && s'.workers[w].todo[i].id == id;
    if l.Dequeue? && s'.workers[w] == Busy(Snapshots(s.table, l.ids), None) && l.w == w {
      assert DueIn(s.table, s.now, l.ids[i]);
      assert s.table.rows[l.ids[i]].id == l.ids[i];
    } else if w in s.workers && s'.workers[w] != s.workers[w] && Finishes(l) {
      assert s'.workers[w].todo == s.workers[w].todo[1..];
      assert s.workers[w].todo[i + 1].id == id;
    } else {
      assert s.workers[w].todo[i].id == id;
    }
  }

  lemma HeldIsInFlight(s: Sys, w: nat, id: nat)
    requires InCustody(s) && w in s.workers && Holds(s.workers[w], id)
    ensures id in s.table.rows && s.table.rows[id].state.InFlight?
  {
  }

  lemma StepKeepsCustody(cfg: Config, s: Sys, l: Label, s': Sys)
    requires IsStep(cfg, s, l, s') && Orderly(s, l) && InCustody(s)
    ensures InCustody(s')
  {
    forall w | w in s'.workers && s'.workers[w].Busy?
      ensures HoldsBatch(s'.table, s'.workers[w].todo)
    {
      BatchesHeld(cfg, s, l, s', w);
    }
    forall v, w, id | v in s'.workers && w in s'.workers && Holds(s'.workers[v], id) && Holds(s'.workers[w], id)
      ensures v == w
    {
      HeldBefore(cfg, s, l, s', v, id);
      HeldBefore(cfg, s, l, s', w, id);
      if v in s.workers && Holds(s.workers[v], id) {
        HeldIsInFlight(s, v, id);
      }
      if w in s.workers && Holds(s.workers[w], id) {
        HeldIsInFlight(s, w, id);
      }
    }
  }

  /** Starting a worker keeps custody exactly when no other worker holds a batch: otherwise
      the requeue takes rows out from under it, and they can be fetched a second time. */
  lemma StartKeepsCustodyIff(cfg: Config, s: Sys, l: Label, s': Sys)
    requires IsStep(cfg, s, l, s') && InCustody(s) && l.Start?
    ensures InCustody(s') <==> Orderly(s, l)
  {
    if Orderly(s, l) {
      StepKeepsCustody(cfg, s, l, s');
    } else {
      var v :| v in s.workers && s.workers[v].Busy?;
      LosesBatch(cfg, s, l, s', v);
    }
  }

  lemma LosesBatch(cfg: Config, s: Sys, l: Label, s': Sys, v: nat)
    requires IsStep(cfg, s, l, s') && InCustody(s) && l.Start?
    requires v in s.workers && s.workers[v].Busy?
    ensures v in s'.workers && s'.workers[v] == s.workers[v] && !HoldsBatch(s'.table, s'.workers[v].todo)
  {
    var item := s.workers[v].todo[0];
    assert HeldRow(s.table, item);
    hide WellFormed;
    assert s'.table.rows[item.id].state.Pending?;
    assert !HeldRow(s'.table, item);
  }

  /** Concurrent workers, for any number of them interleaving with everything else: if none
      starts while another holds a batch, the outstanding batches are pairwise disjoint,
      every row in one is in flight, and its stored columns are those its worker acts on. */
  lemma {:induction false} BatchesDisjoint(cfg: Config, ss: seq<Sys>, ls: seq<Label>, i: nat)
    requires IsRun(cfg, ss, ls) && OrderlyRun(ss, ls) && Init(ss[0]) && i <= |ls|
    ensures InCustody(ss[i])
  {
    if i > 0 {
      BatchesDisjoint(cfg, ss, ls, i - 1);
      StepOfRun(cfg, ss, ls, i - 1);
      assert Orderly(ss[i - 1], ls[i - 1]);
      StepKeepsCustody(cfg, ss[i - 1], ls[i - 1], ss[i]);
    }
  }

  /** Under custody every `mark_*` finds its row in flight, so a row that is delivered or
      dead-lettered stays exactly as it is until it is pruned. */
  lemma FinishedRowsRest(cfg: Config, s: Sys, l: Label, s': Sys, id: nat)
    requires IsStep(cfg, s, l, s') && InCustody(s)
    requires id in s.table.rows && (s.table.rows[id].state.Delivered? || s.table.rows[id].state.DeadLetter?)
    ensures if id in s'.table.rows then s'.table.rows[id] == s.table.rows[id]
            else l.PruneDelivered? && s.table.rows[id].state.Delivered?
  {
    RowRemains(cfg, s, l, s', id);
    if id in s'.table.rows {
      if Finishes(l) {
        ItemIsHeld(s, l.w);
        HeldIsInFlight(s, l.w, Item(s, l.w).id);
      }
      RowUnfinished(cfg, s, l, s', id);
    }
  }

  /** What is left of a finished row. */
  predicate Rests(t: Table, id: nat, row: Row) {
    id < t.nextId && if id in t.rows then t.rows[id] == row else row.state.Delivered?
  }

  lemma StepRests(cfg: Config, s: Sys, l: Label, s': Sys, id: nat, row: Row)
    requires IsStep(cfg, s, l, s') && InCustody(s)
    requires Rests(s.table, id, row) && (row.state.Delivered? || row.state.DeadLetter?)
    ensures Rests(s'.table, id, row)
  {
    StepKeepsTable(cfg, s, l);
    if id in s.table.rows {
      FinishedRowsRest(cfg, s, l, s', id);
    } else if id in s'.table.rows {
      RowAdded(cfg, s, l, s', id);
    }
  }

  lemma RestsOneMore(cfg: Config, ss: seq<Sys>, ls: seq<Label>, k: nat, id: nat, row: Row)
    requires IsRun(cfg, ss, ls) && OrderlyRun(ss, ls) && Init(ss[0]) && k < |ls|
    requires Rests(ss[k].table, id, row) && (row.state.Delivered? || row.state.DeadLetter?)
    ensures Rests(ss[k + 1].table, id, row)
  {
    StepOfRun(cfg, ss, ls, k);
    BatchesDisjoint(cfg, ss, ls, k);
    StepRests(cfg, ss[k], ls[k], ss[k + 1], id, row);
  }

  /** Delivered and dead_letter are absorbing: from the moment a row is in one of them it is
      never changed, and only a delivered row is ever deleted. */
  lemma {:induction false} Absorbing(cfg: Config, ss: seq<Sys>, ls: seq<Label>, i: nat, j: nat, id: nat)
    requires IsRun(cfg, ss, ls) && OrderlyRun(ss, ls) && Init(ss[0]) && i <= j <= |ls|
    requires id in ss[i].table.rows
    requires ss[i].table.rows[id].state.Delivered? || ss[i].table.rows[id].state.DeadLetter?
    ensures Rests(ss[j].table, id, ss[i].table.rows[id])
    decreases j
  {
    if i == j {
      RunKeepsTable(cfg, ss, ls, j);
    } else {
      hide IsRun, OrderlyRun, Init, Rests;
      Absorbing(cfg, ss, ls, i, j - 1, id);
      RestsOneMore(cfg, ss, ls, j - 1, id, ss[i].table.rows[id]);
    }
  }

  // ---------------------------------------------------------------- one worker

  /** The worker whose step this is, if it is a worker's. */
  function Actor(l: Label): Option<nat> {
    match l
    case Start(w) => Some(w)
    case Stop(w) => Some(w)
    case Crash(w) => Some(w)
    case Dequeue(w, _) => Some(w)
    case Unknown(w, _) => Some(w)
    case Unparsable(w, _) => Some(w)
    case Send(w, _, _, _) => Some(w)
    case Settle(w) => Some(w)
    case _ => None
  }

  /** No step of another worker. */
  predicate ByWorker(l: Label, w: nat) {
    Actor(l).None? || Actor(l) == Some(w)
  }

  predicate SingleWorker(ls: seq<Label>, w: nat) {
    forall i | 0 <= i < |ls| :: ByWorker(ls[i], w)
  }

  /** The in_flight rows of a running worker are the unprocessed part of its batch. */
  predicate OwnsFlight(s: Sys, w: nat) {
    && (forall v | v in s.workers :: v == w)
    && (!PhaseOf(s, w).Down? ==>
          forall id | id in s.table.rows && s.table.rows[id].state.InFlight? :: Holds(PhaseOf(s, w), id))
  }

  lemma StepKeepsFlight(cfg: Config, s: Sys, l: Label, s': Sys, w: nat)
    requires IsStep(cfg, s, l, s') && ByWorker(l, w) && InCustody(s) && OwnsFlight(s, w)
    ensures OwnsFlight(s', w)
  {
    OnlyOneWorker(cfg, s, l, s', w);
    hide IsStep, InCustody, ByWorker, Holds;
    if !PhaseOf(s', w).Down? {
      forall id | id in s'.table.rows && s'.table.rows[id].state.InFlight?
        ensures Holds(PhaseOf(s', w), id)
      {
        FlightStep(cfg, s, l, s', w, id);
      }
    }
  }

  lemma OnlyOneWorker(cfg: Config, s: Sys, l: Label, s': Sys, w: nat)
    requires IsStep(cfg, s, l, s') && ByWorker(l, w) && forall v | v in s.workers :: v == w
    ensures forall v | v in s'.workers :: v == w
  {
    hide Address.ParseRecipient, Client.Receive, KeyFor, ServerAllows, RecordsAfter, Header, Truncate, Decide, IsBatch;
    hide WellFormed, Insert, Prunable;
  }

  /** A row in flight after a step was fetched by it or was in flight already, unfinished. */
  lemma InFlightBefore(cfg: Config, s: Sys, l: Label, s': Sys, id: nat)
    requires IsStep(cfg, s, l, s') && id in s'.table.rows && s'.table.rows[id].state.InFlight?
    ensures || (l.Dequeue? && id in l.ids)
            || (id in s.table.rows && s.table.rows[id].state.InFlight? && !l.Start?)
  {
    InHand(cfg, s, l, s');
    if id !in s.table.rows {
      RowAdded(cfg, s, l, s', id);
    } else if Finishes(l) && Item(s, l.w).id == id {
      StepTable(cfg, s, l, s');
      hide IsStep, Next, Statement;
      StatementOfFinish(cfg, s, l);
      CarryRow(s.table, id, ActionOf(cfg, s, l).value, s.now, id);
    } else {
      RowUnfinished(cfg, s, l, s', id);
    }
    hide IsStep, Next, Enabled, Statement, Carry, Item;
  }

  lemma FlightStep(cfg: Config, s: Sys, l: Label, s': Sys, w: nat, id: nat)
    requires IsStep(cfg, s, l, s') && ByWorker(l, w) && InCustody(s) && OwnsFlight(s, w)
    requires !PhaseOf(s', w).Down? && id in s'.table.rows && s'.table.rows[id].state.InFlight?
    ensures Holds(PhaseOf(s', w), id)
  {
    InFlightBefore(cfg, s, l, s', id);
    assert !l.Start?;
    PhaseBefore(cfg, s, l, s', w);
    hide IsStep, InCustody, Next, Enabled, Holds;
    if l.Dequeue? {
      FetchedFlight(cfg, s, l, s', id);
    } else if Finishes(l) {
      FinishedFlight(cfg, s, l, s', id);
    } else {
      KeptFlight(cfg, s, l, s', w, id);
    }
  }

  /** A worker that is up was up before, or started with nothing in flight. */
  lemma PhaseBefore(cfg: Config, s: Sys, l: Label, s': Sys, w: nat)
    requires IsStep(cfg, s, l, s') && ByWorker(l, w) && !PhaseOf(s', w).Down? && !l.Start?
    ensures !PhaseOf(s, w).Down?
  {
    hide Address.ParseRecipient, Client.Receive, KeyFor, ServerAllows, RecordsAfter, Header, Truncate, Decide, IsBatch;
  }

  lemma KeptFlight(cfg: Config, s: Sys, l: Label, s': Sys, w: nat, id: nat)
    requires IsStep(cfg, s, l, s') && ByWorker(l, w) && !PhaseOf(s', w).Down? && Holds(PhaseOf(s, w), id)
    requires !l.Dequeue? && !Finishes(l)
    ensures Holds(PhaseOf(s', w), id)
  {
    SamePhase(cfg, s, l, s', w);
    hide IsStep;
    var i :| 0 <= i < |PhaseOf(s, w).todo| && PhaseOf(s, w).todo[i].id == id;
    assert PhaseOf(s', w).todo[i].id == id;
  }

  lemma SamePhase(cfg: Config, s: Sys, l: Label, s': Sys, w: nat)
    requires IsStep(cfg, s, l, s') && ByWorker(l, w) && PhaseOf(s, w).Busy? && !PhaseOf(s', w).Down?
    requires !l.Dequeue? && !l.Unknown? && !l.Unparsable? && !l.Settle?
    ensures PhaseOf(s', w).Busy? && PhaseOf(s', w).todo == PhaseOf(s, w).todo
  {
  }

  lemma FetchedFlight(cfg: Config, s: Sys, l: Label, s': Sys, id: nat)
    requires IsStep(cfg, s, l, s') && l.Dequeue?
    requires id in l.ids || Holds(PhaseOf(s, l.w), id)
    ensures Holds(PhaseOf(s', l.w), id)
  {
    var i :| 0 <= i < |l.ids| && l.ids[i] == id;
    assert s.table.rows[l.ids[i]].id == l.ids[i];
    assert s'.workers[l.w].todo[i].id == id;
  }

  lemma FinishedFlight(cfg: Config, s: Sys, l: Label, s': Sys, id: nat)
    requires IsStep(cfg, s, l, s') && InCustody(s) && Finishes(l)
    requires Holds(PhaseOf(s, l.w), id) && id in s'.table.rows && s'.table.rows[id].state.InFlight?
    ensures Holds(PhaseOf(s', l.w), id)
  {
    hide Address.ParseRecipient, Client.Receive, KeyFor, ServerAllows, RecordsAfter, Header, Truncate, Decide, IsBatch;
    var todo := s.workers[l.w].todo;
    assert HoldsBatch(s.table, todo);
    assert HeldRow(s.table, todo[0]);
    var i :| 0 <= i < |todo| && todo[i].id == id;
    assert !s'.table.rows[todo[0].id].state.InFlight?;
    assert s'.workers[l.w].todo[i - 1].id == id;
  }

  /** The phases of the workers a label does not move. */
  lemma OthersStay(cfg: Config, s: Sys, l: Label, s': Sys, w: nat)
    requires IsStep(cfg, s, l, s') && w in s.workers && Actor(l) != Some(w)
    ensures w in s'.workers && s'.workers[w] == s.workers[w]
  {
    hide Address.ParseRecipient, Client.Receive, KeyFor, ServerAllows, RecordsAfter, Decide, IsBatch, WellFormed, Prunable;
  }

  // ------------------------------------------------- nobody else holds a row in flight

  /** The holder of a row keeps it, finishes it, or dies with it. */
  lemma HeldStep(cfg: Config, s: Sys, l: Label, s': Sys, id: nat)
    requires IsStep(cfg, s, l, s') && InCustody(s) && Held(s, id)
    requires id in s'.table.rows && s'.table.rows[id].state.InFlight?
    ensures Held(s', id) || (l.Crash? && Holds(PhaseOf(s, l.w), id))
  {
    var w :| w in s.workers && Holds(s.workers[w], id);
    HeldIsInFlight(s, w, id);
    if Actor(l) == Some(w) {
      HolderStep(cfg, s, l, s', id);
    } else {
      OthersStay(cfg, s, l, s', w);
    }
  }

  lemma HolderStep(cfg: Config, s: Sys, l: Label, s': Sys, id: nat)
    requires IsStep(cfg, s, l, s') && InCustody(s) && Actor(l).Some?
    requires Holds(PhaseOf(s, l.w), id) && id in s'.table.rows && s'.table.rows[id].state.InFlight?
    ensures Held(s', id) || l.Crash?
  {
    if Finishes(l) {
      FinishedFlight(cfg, s, l, s', id);
    } else if l.Send? {
      SamePhase(cfg, s, l, s', l.w);
      var i :| 0 <= i < |PhaseOf(s, l.w).todo| && PhaseOf(s, l.w).todo[i].id == id;
      assert PhaseOf(s', l.w).todo[i].id == id;
      assert Holds(s'.workers[l.w], id);
    }
  }

  /** Worker `w` died holding the row at step `k`, and no worker has started since. */
  predicate LostAt(ss: seq<Sys>, ls: seq<Label>, k: nat, i: nat, id: nat)
    requires i <= |ls| <= |ss|
  {
    k < i && ls[k].Crash? && Holds(PhaseOf(ss[k], ls[k].w), id) && forall j | k < j < i :: !ls[j].Start?
  }

  /** With any number of workers, every in_flight row is in the batch of a worker, or its
      holder has crashed and no worker has started since. By `BatchesDisjoint` the holder is
      the only one, so exactly one worker processes each row. */
  lemma {:induction false} FlightIsHeld(cfg: Config, ss: seq<Sys>, ls: seq<Label>, i: nat, id: nat)
    requires IsRun(cfg, ss, ls) && OrderlyRun(ss, ls) && Init(ss[0]) && i <= |ls|
    requires id in InFlightIds(ss[i].table)
    ensures Held(ss[i], id) || exists k :: LostAt(ss, ls, k, i, id)
  {
    if i > 0 {
      var l := ls[i - 1];
      StepOfRun(cfg, ss, ls, i - 1);
      InFlightBefore(cfg, ss[i - 1], l, ss[i], id);
      if l.Dequeue? && id in l.ids {
        FetchedFlight(cfg, ss[i - 1], l, ss[i], id);
        assert Holds(ss[i].workers[l.w], id);
      } else {
        FlightIsHeld(cfg, ss, ls, i - 1, id);
        BatchesDisjoint(cfg, ss, ls, i - 1);
        hide IsStep, InCustody, IsRun;
        StaysHeldOrLost(cfg, ss, ls, i - 1, i, id);
      }
    }
  }

  lemma StaysHeldOrLost(cfg: Config, ss: seq<Sys>, ls: seq<Label>, i: nat, j: nat, id: nat)
    requires j == i + 1 <= |ls| && |ss| == |ls| + 1 && IsStep(cfg, ss[i], ls[i], ss[j])
    requires InCustody(ss[i]) && id in InFlightIds(ss[j].table) && !ls[i].Start?
    requires Held(ss[i], id) || exists k :: LostAt(ss, ls, k, i, id)
    ensures Held(ss[j], id) || exists k :: LostAt(ss, ls, k, j, id)
  {
    hide IsStep, InCustody;
    if Held(ss[i], id) {
      HeldStep(cfg, ss[i], ls[i], ss[j], id);
      if !Held(ss[j], id) {
        assert LostAt(ss, ls, i, j, id);
      }
    } else {
      var k :| LostAt(ss, ls, k, i, id);
      assert LostAt(ss, ls, k, j, id);
    }
  }

  /** A lone worker is orderly: when it starts, it is not holding anything. */
  lemma AloneIsOrderly(cfg: Config, s: Sys, l: Label, w: nat)
    requires Enabled(cfg, s, l) && ByWorker(l, w) && OwnsFlight(s, w)
    ensures Orderly(s, l)
  {
  }

  /** With a single worker, at every step of every run: the in_flight rows are exactly the
      unprocessed suffix of its current batch, so none is left when a tick completes. */
  lemma {:induction false} SingleWorkerOwnsFlight(cfg: Config, ss: seq<Sys>, ls: seq<Label>, w: nat, i: nat)
    requires IsRun(cfg, ss, ls) && SingleWorker(ls, w) && Init(ss[0]) && i <= |ls|
    ensures InCustody(ss[i]) && OwnsFlight(ss[i], w)
    ensures i < |ls| ==> Orderly(ss[i], ls[i])
    ensures PhaseOf(ss[i], w).Idle? ==> InFlightIds(ss[i].table) == {}
    ensures PhaseOf(ss[i], w).Busy? ==>
              forall id :: id in InFlightIds(ss[i].table) <==> Holds(PhaseOf(ss[i], w), id)
  {
    if i > 0 {
      SingleWorkerOwnsFlight(cfg, ss, ls, w, i - 1);
      StepOfRun(cfg, ss, ls, i - 1);
      StepKeepsCustody(cfg, ss[i - 1], ls[i - 1], ss[i]);
      StepKeepsFlight(cfg, ss[i - 1], ls[i - 1], ss[i], w);
    }
    if i < |ls| {
      StepOfRun(cfg, ss, ls, i);
      AloneIsOrderly(cfg, ss[i], ls[i], w);
    }
    FlightIsBatch(ss[i], w);
  }

  lemma FlightIsBatch(s: Sys, w: nat)
    requires InCustody(s) && OwnsFlight(s, w)
    ensures PhaseOf(s, w).Idle? ==> InFlightIds(s.table) == {}
    ensures PhaseOf(s, w).Busy? ==> forall id :: id in InFlightIds(s.table) <==> Holds(PhaseOf(s, w), id)
  {
  }
}
