/** How often one row can be sent: a balance over whole runs with crashes. */
module SendCount {
  import opened Wrappers
  import opened Timestamps
  import opened Table
  import opened WorkerRules
  import opened Delivery
  import opened Custody
  import Address
  import Client

  datatype Kind = Sends | Retries | Closes | Cuts | Restarts

  predicate Concerns(e: Event, kind: Kind, id: nat) {
    match kind
    case Sends => e.Sent? && e.item.id == id
    case Retries => e.Retried? && e.id == id
    case Closes => e.Closed? && e.id == id
    case Cuts => e.Cut? && e.id == id
    case Restarts => e.Restarted? && id in e.ids
  }

  /** The number of events of a kind in the log of row `id`. */
  function Count(log: seq<Event>, kind: Kind, id: nat): nat {
    if log == [] then 0
    else Count(log[..|log| - 1], kind, id) + if Concerns(log[|log| - 1], kind, id) then 1 else 0
  }

  /** A request for this row has been made and its result not yet acted on. */
  predicate Open(s: Sys, id: nat) {
    exists w :: w in s.workers && HasAnswer(s, w) && Item(s, w).id == id
  }

  /** In flight, but the worker that fetched it is gone. */
  predicate Orphan(s: Sys, id: nat) {
    id in s.table.rows && s.table.rows[id].state.InFlight? && !Held(s, id)
  }

  function Flag(b: bool): nat {
    if b then 1 else 0
  }

  function Most(a: int, b: int): int {
    if a < b then b else a
  }

  /** Sends balance against recorded failures, sends cut short by a crash, and the one that
      ended the row; crashes in mid-send are paid for by requeues. */
  predicate Balanced(cfg: Config, s: Sys, id: nat) {
    && Count(s.log, Sends, id) ==
         Count(s.log, Retries, id) + Count(s.log, Cuts, id) + Count(s.log, Closes, id) + Flag(Open(s, id))
    && Count(s.log, Cuts, id) <= Count(s.log, Restarts, id) + Flag(Orphan(s, id))
    && Count(s.log, Retries, id) <= Most(0, cfg.worker.maxAttempts - 1)
    && Count(s.log, Closes, id) <= 1
    && (id in s.table.rows ==> s.table.rows[id].attemptCount == Count(s.log, Retries, id))
    && (Count(s.log, Closes, id) == 1 ==> id !in s.table.rows || !s.table.rows[id].Live())
    && (id >= s.table.nextId ==> forall k :: Count(s.log, k, id) == 0)
  }

  // ---------------------------------------------------------------- the log

  lemma CountStep(cfg: Config, s: Sys, l: Label, s': Sys, kind: Kind, id: nat)
    requires IsStep(cfg, s, l, s')
    ensures |s.log| <= |s'.log| <= |s.log| + 1
    ensures Count(s'.log, kind, id) ==
            Count(s.log, kind, id) + Flag(|s'.log| > |s.log| && Concerns(s'.log[|s.log|], kind, id))
  {
    LogStep(cfg, s, l, s');
  }

  /** Which event each label appends. */
  lemma EventOfStep(cfg: Config, s: Sys, l: Label, s': Sys, id: nat)
    requires IsStep(cfg, s, l, s') && |s.log| <= |s'.log|
    ensures |s'.log| > |s.log| ==>
              var e := s'.log[|s.log|];
              && (Concerns(e, Sends, id) <==> l.Send? && Item(s, l.w).id == id)
              && (Concerns(e, Retries, id) <==> l.Settle? && Item(s, l.w).id == id && Verdict(cfg, s, l.w).Retry?)
              && (Concerns(e, Closes, id) <==> l.Settle? && Item(s, l.w).id == id && !Verdict(cfg, s, l.w).Retry?)
              && (Concerns(e, Cuts, id) <==> l.Crash? && HasAnswer(s, l.w) && Item(s, l.w).id == id)
              && (Concerns(e, Restarts, id) <==>
                    l.Start? && id in s.table.rows && s.table.rows[id].state.InFlight?)
    ensures |s'.log| == |s.log| ==>
              !l.Send? && !l.Settle? && !(l.Crash? && HasAnswer(s, l.w)) && !l.Start?
  {
    hide Address.ParseRecipient, Client.Receive, KeyFor, ServerAllows, RecordsAfter, Decide, IsBatch, WellFormed, Prunable;
  }

  // ---------------------------------------------------------------- who is open

  lemma OpenBefore(cfg: Config, s: Sys, l: Label, s': Sys, id: nat)
    requires IsStep(cfg, s, l, s') && Open(s', id)
    ensures Open(s, id) || (l.Send? && Item(s, l.w).id == id)
  {
    var w :| w in s'.workers && HasAnswer(s', w) && Item(s', w).id == id;
    WorkerStep(cfg, s, l, s', w);
    if w in s.workers && s'.workers[w] == s.workers[w] {
      assert HasAnswer(s, w) && Item(s, w).id == id;
    }
  }

  lemma OpenAfter(cfg: Config, s: Sys, l: Label, s': Sys, id: nat)
    requires IsStep(cfg, s, l, s') && Open(s, id)
    ensures Open(s', id) || ((l.Settle? || (l.Crash? && HasAnswer(s, l.w))) && Item(s, l.w).id == id)
  {
    var w :| w in s.workers && HasAnswer(s, w) && Item(s, w).id == id;
    if Actor(l) == Some(w) {
      assert l.Settle? || l.Crash?;
    } else {
      OthersStay(cfg, s, l, s', w);
      assert HasAnswer(s', w) && Item(s', w).id == id;
    }
  }

  /** Only one worker at a time has an open request for a row. */
  lemma OpenIsHeld(s: Sys, id: nat)
    requires InCustody(s) && Open(s, id)
    ensures Held(s, id) && id in s.table.rows && s.table.rows[id].state.InFlight?
    ensures forall w | w in s.workers && Holds(s.workers[w], id) :: HasAnswer(s, w) && Item(s, w).id == id
  {
  }

  /** A request opens on Send, and closes when it is settled or its worker dies. */
  lemma OpenStep(cfg: Config, s: Sys, l: Label, s': Sys, id: nat)
    requires IsStep(cfg, s, l, s') && Orderly(s, l) && InCustody(s) && InCustody(s')
    ensures l.Send? && Item(s, l.w).id == id ==> !Open(s, id) && Open(s', id)
    ensures (l.Settle? || (l.Crash? && HasAnswer(s, l.w))) && Item(s, l.w).id == id ==> Open(s, id) && !Open(s', id)
    ensures !(l.Send? && Item(s, l.w).id == id)
            && !((l.Settle? || (l.Crash? && HasAnswer(s, l.w))) && Item(s, l.w).id == id) ==>
              (Open(s', id) <==> Open(s, id))
  {
    if l.Send? && Item(s, l.w).id == id {
      SendOpens(cfg, s, l, s');
    } else if (l.Settle? || (l.Crash? && HasAnswer(s, l.w))) && Item(s, l.w).id == id {
      EndCloses(cfg, s, l, s');
    } else {
      if Open(s, id) {
        OpenAfter(cfg, s, l, s', id);
      }
      if Open(s', id) {
        OpenBefore(cfg, s, l, s', id);
      }
    }
  }

  lemma SendOpens(cfg: Config, s: Sys, l: Label, s': Sys)
    requires IsStep(cfg, s, l, s') && l.Send? && InCustody(s)
    ensures !Open(s, Item(s, l.w).id) && Open(s', Item(s, l.w).id)
  {
    var id := Item(s, l.w).id;
    ItemIsHeld(s, l.w);
    if Open(s, id) {
      OpenIsHeld(s, id);
      assert false;
    }
    assert HasAnswer(s', l.w) && Item(s', l.w).id == id;
  }

  lemma EndCloses(cfg: Config, s: Sys, l: Label, s': Sys)
    requires IsStep(cfg, s, l, s') && (l.Settle? || l.Crash?) && HasAnswer(s, l.w) && InCustody(s)
    ensures Open(s, Item(s, l.w).id) && !Open(s', Item(s, l.w).id)
  {
    var id := Item(s, l.w).id;
    assert l.w in s.workers;
    ItemIsHeld(s, l.w);
    if Open(s', id) {
      var v :| v in s'.workers && HasAnswer(s', v) && Item(s', v).id == id;
      ItemIsHeld(s', v);
      HeldBefore(cfg, s, l, s', v, id);
      assert v == l.w;
      NoAnswerAfterEnd(cfg, s, l, s');
      assert false;
    }
  }

  lemma NoAnswerAfterEnd(cfg: Config, s: Sys, l: Label, s': Sys)
    requires IsStep(cfg, s, l, s') && (l.Settle? || l.Crash?) && HasAnswer(s, l.w)
    ensures !HasAnswer(s', l.w)
  {
  }

  // ---------------------------------------------------------------- who is orphaned

  /** A row is orphaned by the crash of its holder and stays so until a worker starts. */
  lemma OrphanStep(cfg: Config, s: Sys, l: Label, s': Sys, id: nat)
    requires IsStep(cfg, s, l, s') && Orderly(s, l) && InCustody(s) && InCustody(s')
    ensures Orphan(s, id) && !l.Start? ==> Orphan(s', id)
    ensures l.Crash? && HasAnswer(s, l.w) && Item(s, l.w).id == id ==> !Orphan(s, id) && Orphan(s', id)
  {
    if Orphan(s, id) && !l.Start? {
      OrphanStays(cfg, s, l, s', id);
    }
    if l.Crash? && HasAnswer(s, l.w) && Item(s, l.w).id == id {
      CrashOrphans(cfg, s, l, s');
    }
  }

  lemma OrphanStays(cfg: Config, s: Sys, l: Label, s': Sys, id: nat)
    requires IsStep(cfg, s, l, s') && InCustody(s) && Orphan(s, id) && !l.Start?
    ensures Orphan(s', id)
  {
    if Finishes(l) {
      ItemIsHeld(s, l.w);
    }
    RowRemains(cfg, s, l, s', id);
    RowUnfinished(cfg, s, l, s', id);
    if Held(s', id) {
      var w :| w in s'.workers && Holds(s'.workers[w], id);
      HeldBefore(cfg, s, l, s', w, id);
      assert false;
    }
  }

  lemma CrashOrphans(cfg: Config, s: Sys, l: Label, s': Sys)
    requires IsStep(cfg, s, l, s') && l.Crash? && HasAnswer(s, l.w) && InCustody(s)
    ensures !Orphan(s, Item(s, l.w).id) && Orphan(s', Item(s, l.w).id)
  {
    var id := Item(s, l.w).id;
    ItemIsHeld(s, l.w);
    HeldIsInFlight(s, l.w, id);
    assert s'.table == s.table && s'.workers[l.w] == Down;
    if Held(s', id) {
      var w :| w in s'.workers && Holds(s'.workers[w], id);
      HeldBefore(cfg, s, l, s', w, id);
      assert false;
    }
  }

  // ---------------------------------------------------------------- the row itself

  /** How the settled row changes: one more attempt on record, or finished for good. */
  lemma SettledRow(cfg: Config, s: Sys, l: Label, s': Sys)
    requires IsStep(cfg, s, l, s') && l.Settle? && InCustody(s)
    ensures var id := Item(s, l.w).id;
            && id in s.table.rows && s.table.rows[id].Live() && id in s'.table.rows
            && (Verdict(cfg, s, l.w).Retry? ==>
                  && s'.table.rows[id].attemptCount == s.table.rows[id].attemptCount + 1
                  && s'.table.rows[id].attemptCount < cfg.worker.maxAttempts)
            && (!Verdict(cfg, s, l.w).Retry? ==>
                  s'.table.rows[id].attemptCount == s.table.rows[id].attemptCount && !s'.table.rows[id].Live())
  {
    ItemIsHeld(s, l.w);
    assert HoldsBatch(s.table, s.workers[l.w].todo);
    assert HeldRow(s.table, s.workers[l.w].todo[0]);
    hide InCustody, HoldsBatch, Address.ParseRecipient, Client.Receive, IsBatch, ServerAllows, KeyFor;
  }

  /** No other step counts an attempt or revives a finished row. */
  lemma OtherRow(cfg: Config, s: Sys, l: Label, s': Sys, id: nat)
    requires IsStep(cfg, s, l, s') && InCustody(s) && id in s.table.rows && id in s'.table.rows
    requires l.Settle? ==> Item(s, l.w).id != id
    ensures s'.table.rows[id].attemptCount == s.table.rows[id].attemptCount
    ensures s'.table.rows[id].Live() ==> s.table.rows[id].Live()
  {
    if !s.table.rows[id].Live() {
      FinishedRowsRest(cfg, s, l, s', id);
    } else {
      AttemptsKept(cfg, s, l, s', id);
    }
  }

  lemma AttemptsKept(cfg: Config, s: Sys, l: Label, s': Sys, id: nat)
    requires IsStep(cfg, s, l, s') && id in s.table.rows && id in s'.table.rows
    requires l.Settle? ==> Item(s, l.w).id != id
    ensures s'.table.rows[id].attemptCount == s.table.rows[id].attemptCount
  {
    StepTable(cfg, s, l, s');
    if Finishes(l) {
      StatementOfFinish(cfg, s, l);
      CarryRow(s.table, Item(s, l.w).id, ActionOf(cfg, s, l).value, s.now, id);
    }
    hide Next, Enabled, IsStep, MailOf, Verdict, Item, Prunable, Truncate, HasKey, Carry;
  }

  // ---------------------------------------------------------------- the balance

  lemma CountsStep(cfg: Config, s: Sys, l: Label, s': Sys, id: nat)
    requires IsStep(cfg, s, l, s')
    ensures Count(s'.log, Sends, id) == Count(s.log, Sends, id) + Flag(l.Send? && Item(s, l.w).id == id)
    ensures Count(s'.log, Retries, id) ==
            Count(s.log, Retries, id) + Flag(l.Settle? && Item(s, l.w).id == id && Verdict(cfg, s, l.w).Retry?)
    ensures Count(s'.log, Closes, id) ==
            Count(s.log, Closes, id) + Flag(l.Settle? && Item(s, l.w).id == id && !Verdict(cfg, s, l.w).Retry?)
    ensures Count(s'.log, Cuts, id) ==
            Count(s.log, Cuts, id) + Flag(l.Crash? && HasAnswer(s, l.w) && Item(s, l.w).id == id)
    ensures Count(s'.log, Restarts, id) ==
            Count(s.log, Restarts, id) + Flag(l.Start? && id in s.table.rows && s.table.rows[id].state.InFlight?)
  {
    CountStep(cfg, s, l, s', Sends, id);
    CountStep(cfg, s, l, s', Retries, id);
    CountStep(cfg, s, l, s', Closes, id);
    CountStep(cfg, s, l, s', Cuts, id);
    CountStep(cfg, s, l, s', Restarts, id);
    EventOfStep(cfg, s, l, s', id);
    hide IsStep;
  }

  /** The row agrees with its log after the step. */
  predicate RowAgrees(cfg: Config, s: Sys, id: nat) {
    && Count(s.log, Retries, id) <= Most(0, cfg.worker.maxAttempts - 1)
    && Count(s.log, Closes, id) <= 1
    && (id in s.table.rows ==> s.table.rows[id].attemptCount == Count(s.log, Retries, id))
    && (Count(s.log, Closes, id) == 1 ==> id !in s.table.rows || !s.table.rows[id].Live())
  }

  lemma RowStaysAgreed(cfg: Config, s: Sys, l: Label, s': Sys, id: nat)
    requires IsStep(cfg, s, l, s') && InCustody(s) && Balanced(cfg, s, id)
    ensures RowAgrees(cfg, s', id)
  {
    BalancedRow(cfg, s, id);
    CountsStep(cfg, s, l, s', id);
    hide Balanced, Count, InCustody, Next, Enabled, Verdict, HasAnswer;
    if l.Settle? && Item(s, l.w).id == id {
      SettledRow(cfg, s, l, s');
    } else if id in s'.table.rows && id in s.table.rows {
      OtherRow(cfg, s, l, s', id);
    } else if id in s'.table.rows {
      RowAdded(cfg, s, l, s', id);
    }
    hide IsStep, Item;
  }

  lemma BalancedRow(cfg: Config, s: Sys, id: nat)
    requires Balanced(cfg, s, id)
    ensures RowAgrees(cfg, s, id)
    ensures id >= s.table.nextId ==> Count(s.log, Retries, id) == 0 && Count(s.log, Closes, id) == 0
  {
    hide Count;
  }

  /** Items in hand are rows of the table. */
  lemma TouchesKnownRows(cfg: Config, s: Sys, l: Label, id: nat)
    requires WellFormed(s.table) && Enabled(cfg, s, l) && InCustody(s) && id >= s.table.nextId
    ensures l.Send? || l.Settle? ==> Item(s, l.w).id != id
    ensures l.Crash? && HasAnswer(s, l.w) ==> Item(s, l.w).id != id
    ensures id !in s.table.rows
  {
    if l.Send? || l.Settle? || (l.Crash? && HasAnswer(s, l.w)) {
      ItemIsHeld(s, l.w);
      HeldIsInFlight(s, l.w, Item(s, l.w).id);
    }
  }

  lemma FreshStaysSilent(cfg: Config, s: Sys, l: Label, s': Sys, id: nat, kind: Kind)
    requires IsStep(cfg, s, l, s') && InCustody(s) && Balanced(cfg, s, id) && id >= s'.table.nextId
    ensures Count(s'.log, kind, id) == 0
  {
    StepKeepsTable(cfg, s, l);
    TouchesKnownRows(cfg, s, l, id);
    CountsStep(cfg, s, l, s', id);
    assert Count(s.log, kind, id) == 0;
    hide IsStep, InCustody, Count;
  }

  lemma OrphanIsRequeued(s: Sys, l: Label, id: nat)
    ensures Orphan(s, id) ==> id in s.table.rows && s.table.rows[id].state.InFlight?
  {
  }

  lemma BalanceStep(cfg: Config, s: Sys, l: Label, s': Sys, id: nat)
    requires IsStep(cfg, s, l, s') && Orderly(s, l) && InCustody(s) && InCustody(s') && Balanced(cfg, s, id)
    ensures Balanced(cfg, s', id)
  {
    hide IsStep, InCustody, Open, Orphan, Orderly, Count;
    CountsStep(cfg, s, l, s', id);
    OpenStep(cfg, s, l, s', id);
    OrphanStep(cfg, s, l, s', id);
    RowStaysAgreed(cfg, s, l, s', id);
    if id >= s'.table.nextId {
      forall k
        ensures Count(s'.log, k, id) == 0
      {
        FreshStaysSilent(cfg, s, l, s', id, k);
      }
    }
    OrphanIsRequeued(s, l, id);
  }

  lemma StartsBalanced(cfg: Config, s: Sys, id: nat)
    requires Init(s)
    ensures Balanced(cfg, s, id)
  {
  }

  lemma BalanceAt(cfg: Config, ss: seq<Sys>, ls: seq<Label>, i: nat, id: nat)
    requires IsRun(cfg, ss, ls) && OrderlyRun(ss, ls) && Init(ss[0]) && i < |ls| && Balanced(cfg, ss[i], id)
    ensures Balanced(cfg, ss[i + 1], id)
  {
    StepOfRun(cfg, ss, ls, i);
    BatchesDisjoint(cfg, ss, ls, i);
    BatchesDisjoint(cfg, ss, ls, i + 1);
    assert Orderly(ss[i], ls[i]);
    hide IsStep, InCustody, Balanced, Orderly;
    BalanceStep(cfg, ss[i], ls[i], ss[i + 1], id);
  }

  /** The send-count law, for every row of every run in which no worker starts over another's
      batch (so for every run with one worker): the requests made for a row are its recorded
      transient failures, plus the requests a crash cut short, plus one if a request ended
      the row, plus one while a request is outstanding. */
  lemma {:induction false} SendCountLaw(cfg: Config, ss: seq<Sys>, ls: seq<Label>, i: nat, id: nat)
    requires IsRun(cfg, ss, ls) && OrderlyRun(ss, ls) && Init(ss[0]) && i <= |ls|
    ensures Balanced(cfg, ss[i], id)
  {
    hide Balanced;
    if i == 0 {
      StartsBalanced(cfg, ss[0], id);
    } else {
      SendCountLaw(cfg, ss, ls, i - 1, id);
      BalanceAt(cfg, ss, ls, i - 1, id);
    }
  }

  /** So a row is never sent more often than `max(1, max_attempts)` plus the number of times
      it was requeued, at any point of any such run. */
  lemma SendBound(cfg: Config, ss: seq<Sys>, ls: seq<Label>, i: nat, id: nat)
    requires IsRun(cfg, ss, ls) && OrderlyRun(ss, ls) && Init(ss[0]) && i <= |ls|
    ensures Count(ss[i].log, Sends, id) <= Most(1, cfg.worker.maxAttempts) + Count(ss[i].log, Restarts, id)
  {
    SendCountLaw(cfg, ss, ls, i, id);
    BatchesDisjoint(cfg, ss, ls, i);
    BalanceBounds(cfg, ss[i], id);
  }

  lemma BalanceBounds(cfg: Config, s: Sys, id: nat)
    requires InCustody(s) && Balanced(cfg, s, id)
    ensures Count(s.log, Sends, id) <= Most(1, cfg.worker.maxAttempts) + Count(s.log, Restarts, id)
  {
  }
}
