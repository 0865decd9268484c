/** The back-off between two sends of a row holds over whole runs, crashes included. */
module Spacing {
  import opened Wrappers
  import opened Timestamps
  import opened Table
  import opened WorkerRules
  import opened Delivery
  import opened Custody
  import SendCount
  import Address
  import Client

  /** The seconds configured before attempt number `j`; none are configured by an empty list. */
  function Wait(backoff: seq<int>, j: nat): int {
    if backoff == [] then 0 else Delay(backoff, j)
  }

  /** The configured seconds from attempt `a` to attempt `b`: the sum of
      `backoff[min(j, len - 1)]` for `a < j <= b`. */
  function Gap(backoff: seq<int>, a: nat, b: nat): int
    decreases b
  {
    if b <= a then 0 else Gap(backoff, a, b - 1) + Wait(backoff, b)
  }

  predicate MonotoneClock(s: Sys, l: Label) {
    l.Clock? ==> s.now <= l.t
  }

  predicate ForwardRun(ss: seq<Sys>, ls: seq<Label>) {
    |ss| == |ls| + 1 && forall i | 0 <= i < |ls| :: MonotoneClock(ss[i], ls[i])
  }

  /** Event `i` of the log is a request for row `id`. */
  predicate SendOf(log: seq<Event>, i: int, id: nat) {
    0 <= i < |log| && log[i].Sent? && log[i].item.id == id
  }

  /** The number of failures on record when request `i` was made. */
  function AttemptAt(log: seq<Event>, i: int): nat
    requires 0 <= i < |log| && log[i].Sent?
  {
    log[i].item.attemptCount
  }

  /** The earliest time the row may be fetched again. */
  function ReadyAt(s: Sys, id: nat): Instant {
    if id in s.table.rows && s.table.rows[id].state.Pending? && s.table.rows[id].nextAttemptAt.Some?
    then s.table.rows[id].nextAttemptAt.value else s.now
  }

  /** Two requests are at least the configured back-off apart. */
  predicate Apart(cfg: Config, log: seq<Event>, i: int, j: int)
    requires 0 <= i < |log| && log[i].Sent? && 0 <= j < |log| && log[j].Sent?
  {
    && AttemptAt(log, i) <= AttemptAt(log, j)
    && log[i].at + Gap(cfg.worker.backoff, AttemptAt(log, i), AttemptAt(log, j)) * MICROS_PER_SECOND <= log[j].at
  }

  /** The row may not be fetched before the back-off since request `i` has passed. */
  predicate Waits(cfg: Config, s: Sys, i: int, id: nat)
    requires 0 <= i < |s.log| && s.log[i].Sent?
  {
    && id < s.table.nextId
    && (id in s.table.rows ==>
          && AttemptAt(s.log, i) <= s.table.rows[id].attemptCount
          && s.log[i].at + Gap(cfg.worker.backoff, AttemptAt(s.log, i), s.table.rows[id].attemptCount) * MICROS_PER_SECOND
               <= ReadyAt(s, id))
  }

  /** Request number `k` was made before position `n` of the log. */
  predicate Tried(log: seq<Event>, n: nat, id: nat, k: nat) {
    exists i :: 0 <= i < n && SendOf(log, i, id) && AttemptAt(log, i) == k
  }

  predicate Spaced(cfg: Config, s: Sys, id: nat) {
    && (forall i, j | 0 <= i < j < |s.log| && SendOf(s.log, i, id) && SendOf(s.log, j, id) :: Apart(cfg, s.log, i, j))
    && (forall i | 0 <= i < |s.log| && SendOf(s.log, i, id) :: Waits(cfg, s, i, id))
    && (forall j, k: nat | 0 <= j < |s.log| && SendOf(s.log, j, id) && k < AttemptAt(s.log, j) :: Tried(s.log, j, id, k))
    && (id in s.table.rows ==>
          forall k: nat | k < s.table.rows[id].attemptCount :: Tried(s.log, |s.log|, id, k))
  }

  // ---------------------------------------------------------------- the waiting time

  lemma ClockForward(cfg: Config, s: Sys, l: Label, s': Sys)
    requires IsStep(cfg, s, l, s') && MonotoneClock(s, l)
    ensures s.now <= s'.now
  {
  }

  /** The time a row becomes ready never moves back while its attempts stand. */
  lemma ReadyForward(cfg: Config, s: Sys, l: Label, s': Sys, id: nat)
    requires IsStep(cfg, s, l, s') && MonotoneClock(s, l) && id in s.table.rows && id in s'.table.rows
    requires Finishes(l) ==> Item(s, l.w).id != id
    ensures ReadyAt(s, id) <= ReadyAt(s', id)
  {
    ClockForward(cfg, s, l, s');
    RowUnfinished(cfg, s, l, s', id);
    hide IsStep;
  }

  /** An item being finished was in flight, so it was ready now. */
  lemma FinishedReady(cfg: Config, s: Sys, l: Label, s': Sys)
    requires IsStep(cfg, s, l, s') && InCustody(s) && Finishes(l)
    ensures var id := Item(s, l.w).id;
            && ReadyAt(s, id) == s.now && id in s.table.rows && id in s'.table.rows
            && (if l.Settle? && Verdict(cfg, s, l.w).Retry? then
                  && s'.table.rows[id].attemptCount == s.table.rows[id].attemptCount + 1
                  && ReadyAt(s', id) == s.now + Wait(cfg.worker.backoff, s'.table.rows[id].attemptCount) * MICROS_PER_SECOND
                else
                  s'.table.rows[id].attemptCount == s.table.rows[id].attemptCount && ReadyAt(s', id) == s.now)
  {
    ItemIsHeld(s, l.w);
    assert HoldsBatch(s.table, s.workers[l.w].todo);
    assert HeldRow(s.table, s.workers[l.w].todo[0]);
    hide InCustody, HoldsBatch, Address.ParseRecipient, Client.Receive, IsBatch, ServerAllows, KeyFor;
  }

  lemma IdsGrow(cfg: Config, s: Sys, l: Label, s': Sys)
    requires IsStep(cfg, s, l, s')
    ensures s.table.nextId <= s'.table.nextId
  {
    StepKeepsTable(cfg, s, l);
  }

  /** A wait survives every step. */
  lemma WaitsOn(cfg: Config, s: Sys, l: Label, s': Sys, i: nat, id: nat)
    requires IsStep(cfg, s, l, s') && MonotoneClock(s, l) && InCustody(s)
    requires SendOf(s.log, i, id) && Waits(cfg, s, i, id) && i < |s'.log| && s'.log[i] == s.log[i]
    ensures Waits(cfg, s', i, id)
  {
    hide IsStep, InCustody, MonotoneClock, Wait, BackoffSeconds;
    InHand(cfg, s, l, s');
    IdsGrow(cfg, s, l, s');
    if id in s'.table.rows {
      if id !in s.table.rows {
        RowAdded(cfg, s, l, s', id);
      } else if Finishes(l) && Item(s, l.w).id == id {
        FinishedReady(cfg, s, l, s');
        hide ReadyAt;
      } else {
        ReadyForward(cfg, s, l, s', id);
        SendCount.AttemptsKept(cfg, s, l, s', id);
        hide ReadyAt;
      }
    }
  }

  /** What a Send step appends: a request for a held row, numbered by its recorded failures. */
  lemma NewSend(cfg: Config, s: Sys, l: Label, s': Sys)
    requires IsStep(cfg, s, l, s') && l.Send? && InCustody(s)
    ensures var id := Item(s, l.w).id;
            && |s'.log| == |s.log| + 1 && SendOf(s'.log, |s.log|, id) && s'.log[|s.log|].at == s.now
            && id in s.table.rows && AttemptAt(s'.log, |s.log|) == s.table.rows[id].attemptCount
            && ReadyAt(s, id) == s.now && s'.table == s.table && s'.now == s.now
  {
    ItemIsHeld(s, l.w);
    assert HoldsBatch(s.table, s.workers[l.w].todo);
    assert HeldRow(s.table, s.workers[l.w].todo[0]);
    hide InCustody, HoldsBatch, Address.ParseRecipient, Client.Receive, IsBatch, ServerAllows, KeyFor;
  }

  lemma OnlySendSends(cfg: Config, s: Sys, l: Label, s': Sys)
    requires IsStep(cfg, s, l, s') && |s'.log| > |s.log| && s'.log[|s.log|].Sent?
    ensures l.Send? && s'.log[|s.log|].item == Item(s, l.w)
  {
    hide Address.ParseRecipient, Client.Receive, KeyFor, ServerAllows, RecordsAfter, Decide, IsBatch, WellFormed, Prunable;
  }

  lemma TriedStays(log: seq<Event>, log': seq<Event>, n: nat, m: nat, id: nat, k: nat)
    requires n <= |log| <= |log'| && n <= m && Tried(log, n, id, k)
    requires forall i | 0 <= i < |log| :: log'[i] == log[i]
    ensures Tried(log', m, id, k)
  {
    var i :| 0 <= i < n && SendOf(log, i, id) && AttemptAt(log, i) == k;
    assert SendOf(log', i, id);
  }

  // ---------------------------------------------------------------- the parts of Spaced

  lemma PairApart(cfg: Config, s: Sys, l: Label, s': Sys, i: nat, j: nat, id: nat)
    requires IsStep(cfg, s, l, s') && InCustody(s) && Spaced(cfg, s, id)
    requires i < j < |s'.log| && SendOf(s'.log, i, id) && SendOf(s'.log, j, id)
    ensures Apart(cfg, s'.log, i, j)
  {
    LogStep(cfg, s, l, s');
    if j < |s.log| {
      hide IsStep, InCustody;
      OldPairApart(cfg, s, s'.log, i, j, id);
    } else {
      OnlySendSends(cfg, s, l, s');
      NewSend(cfg, s, l, s');
      hide IsStep, InCustody;
      NewPairApart(cfg, s, s'.log, i, id);
    }
  }

  lemma OldPairApart(cfg: Config, s: Sys, log: seq<Event>, i: nat, j: nat, id: nat)
    requires Spaced(cfg, s, id) && |s.log| <= |log| && forall k | 0 <= k < |s.log| :: log[k] == s.log[k]
    requires i < j < |s.log| && SendOf(log, i, id) && SendOf(log, j, id)
    ensures Apart(cfg, log, i, j)
  {
    hide Waits, Tried;
    assert SendOf(s.log, i, id) && SendOf(s.log, j, id);
    assert Apart(cfg, s.log, i, j);
  }

  /** A request made now comes after the wait that the earlier one imposed. */
  lemma NewPairApart(cfg: Config, s: Sys, log: seq<Event>, i: nat, id: nat)
    requires Spaced(cfg, s, id) && |log| == |s.log| + 1 && forall k | 0 <= k < |s.log| :: log[k] == s.log[k]
    requires i < |s.log| && SendOf(log, i, id) && SendOf(log, |s.log|, id) && log[|s.log|].at == s.now
    requires id in s.table.rows && AttemptAt(log, |s.log|) == s.table.rows[id].attemptCount && ReadyAt(s, id) == s.now
    ensures Apart(cfg, log, i, |s.log|)
  {
    hide Tried, ReadyAt, Gap;
    assert SendOf(s.log, i, id);
    assert Waits(cfg, s, i, id);
  }

  lemma SendWaits(cfg: Config, s: Sys, l: Label, s': Sys, i: nat, id: nat)
    requires IsStep(cfg, s, l, s') && MonotoneClock(s, l) && InCustody(s) && Spaced(cfg, s, id)
    requires i < |s'.log| && SendOf(s'.log, i, id)
    ensures Waits(cfg, s', i, id)
  {
    LogStep(cfg, s, l, s');
    if i < |s.log| {
      assert SendOf(s.log, i, id);
      WaitsOn(cfg, s, l, s', i, id);
    } else {
      OnlySendSends(cfg, s, l, s');
      NewSend(cfg, s, l, s');
      hide IsStep, InCustody;
    }
  }

  lemma SendTried(cfg: Config, s: Sys, l: Label, s': Sys, j: nat, id: nat, k: nat)
    requires IsStep(cfg, s, l, s') && InCustody(s) && Spaced(cfg, s, id)
    requires j < |s'.log| && SendOf(s'.log, j, id) && k < AttemptAt(s'.log, j)
    ensures Tried(s'.log, j, id, k)
  {
    LogStep(cfg, s, l, s');
    if j < |s.log| {
      assert SendOf(s.log, j, id);
      TriedStays(s.log, s'.log, j, j, id, k);
    } else {
      OnlySendSends(cfg, s, l, s');
      NewSend(cfg, s, l, s');
      TriedStays(s.log, s'.log, |s.log|, j, id, k);
    }
  }

  /** A row counts a failure only for a request that was made. */
  lemma RowTried(cfg: Config, s: Sys, l: Label, s': Sys, id: nat, k: nat)
    requires IsStep(cfg, s, l, s') && InCustody(s) && Spaced(cfg, s, id) && AnswersSent(s)
    requires id in s'.table.rows && k < s'.table.rows[id].attemptCount
    ensures Tried(s'.log, |s'.log|, id, k)
  {
    LogStep(cfg, s, l, s');
    if id !in s.table.rows {
      RowAdded(cfg, s, l, s', id);
      assert false;
    } else if l.Settle? && Item(s, l.w).id == id {
      FinishedReady(cfg, s, l, s');
      if k < s.table.rows[id].attemptCount {
        TriedStays(s.log, s'.log, |s.log|, |s'.log|, id, k);
      } else {
        SettledWasSent(s, l.w);
        TriedStays(s.log, s'.log, |s.log|, |s'.log|, id, k);
      }
    } else {
      SendCount.AttemptsKept(cfg, s, l, s', id);
      TriedStays(s.log, s'.log, |s.log|, |s'.log|, id, k);
    }
  }

  /** Every answer in hand belongs to a logged request for that very item. */
  predicate AnswersSent(s: Sys) {
    forall w | w in s.workers && HasAnswer(s, w) :: ItemSent(s.log, Item(s, w))
  }

  predicate ItemSent(log: seq<Event>, item: Row) {
    exists i :: 0 <= i < |log| && log[i].Sent? && log[i].item == item
  }

  lemma SettledWasSent(s: Sys, w: nat)
    requires InCustody(s) && AnswersSent(s) && HasAnswer(s, w)
    ensures var id := Item(s, w).id;
            id in s.table.rows && Tried(s.log, |s.log|, id, s.table.rows[id].attemptCount)
  {
    assert w in s.workers;
    assert HoldsBatch(s.table, s.workers[w].todo);
    assert HeldRow(s.table, s.workers[w].todo[0]);
    assert ItemSent(s.log, Item(s, w));
    var i :| 0 <= i < |s.log| && s.log[i].Sent? && s.log[i].item == Item(s, w);
    assert SendOf(s.log, i, Item(s, w).id);
  }

  lemma AnswersStaySent(cfg: Config, s: Sys, l: Label, s': Sys, w: nat)
    requires IsStep(cfg, s, l, s') && AnswersSent(s) && w in s'.workers && HasAnswer(s', w)
    ensures ItemSent(s'.log, Item(s', w))
  {
    LogStep(cfg, s, l, s');
    WorkerStep(cfg, s, l, s', w);
    if w in s.workers && s'.workers[w] == s.workers[w] {
      assert HasAnswer(s, w);
      var i :| 0 <= i < |s.log| && s.log[i].Sent? && s.log[i].item == Item(s, w);
      assert s'.log[i] == s.log[i];
    } else {
      assert s'.log[|s.log|].item == Item(s', w);
    }
  }

  lemma StepAnswersSent(cfg: Config, s: Sys, l: Label, s': Sys)
    requires IsStep(cfg, s, l, s') && AnswersSent(s)
    ensures AnswersSent(s')
  {
    forall w | w in s'.workers && HasAnswer(s', w)
      ensures ItemSent(s'.log, Item(s', w))
    {
      AnswersStaySent(cfg, s, l, s', w);
    }
  }

  lemma StepSpaced(cfg: Config, s: Sys, l: Label, s': Sys, id: nat)
    requires IsStep(cfg, s, l, s') && MonotoneClock(s, l) && InCustody(s) && Spaced(cfg, s, id) && AnswersSent(s)
    ensures Spaced(cfg, s', id)
  {
    forall i, j | 0 <= i < j < |s'.log| && SendOf(s'.log, i, id) && SendOf(s'.log, j, id)
      ensures Apart(cfg, s'.log, i, j)
    {
      PairApart(cfg, s, l, s', i, j, id);
    }
    forall i | 0 <= i < |s'.log| && SendOf(s'.log, i, id)
      ensures Waits(cfg, s', i, id)
    {
      SendWaits(cfg, s, l, s', i, id);
    }
    forall j, k: nat | 0 <= j < |s'.log| && SendOf(s'.log, j, id) && k < AttemptAt(s'.log, j)
      ensures Tried(s'.log, j, id, k)
    {
      SendTried(cfg, s, l, s', j, id, k);
    }
    if id in s'.table.rows {
      forall k: nat | k < s'.table.rows[id].attemptCount
        ensures Tried(s'.log, |s'.log|, id, k)
      {
        RowTried(cfg, s, l, s', id, k);
      }
    }
    hide IsStep, InCustody, Waits, Apart, Tried, AnswersSent, MonotoneClock;
  }

  lemma StartsSpaced(cfg: Config, s: Sys, id: nat)
    requires Init(s)
    ensures Spaced(cfg, s, id) && AnswersSent(s)
  {
  }

  lemma SpacedAt(cfg: Config, ss: seq<Sys>, ls: seq<Label>, i: nat, id: nat)
    requires IsRun(cfg, ss, ls) && OrderlyRun(ss, ls) && ForwardRun(ss, ls) && Init(ss[0])
    requires i < |ls| && Spaced(cfg, ss[i], id) && AnswersSent(ss[i])
    ensures Spaced(cfg, ss[i + 1], id) && AnswersSent(ss[i + 1])
  {
    StepOfRun(cfg, ss, ls, i);
    BatchesDisjoint(cfg, ss, ls, i);
    assert MonotoneClock(ss[i], ls[i]);
    hide IsStep, InCustody, Spaced, AnswersSent, MonotoneClock;
    StepAnswersSent(cfg, ss[i], ls[i], ss[i + 1]);
    StepSpaced(cfg, ss[i], ls[i], ss[i + 1], id);
  }

  lemma {:induction false} RunSpaced(cfg: Config, ss: seq<Sys>, ls: seq<Label>, i: nat, id: nat)
    requires IsRun(cfg, ss, ls) && OrderlyRun(ss, ls) && ForwardRun(ss, ls) && Init(ss[0]) && i <= |ls|
    ensures Spaced(cfg, ss[i], id) && AnswersSent(ss[i])
  {
    hide Spaced, AnswersSent;
    if i == 0 {
      StartsSpaced(cfg, ss[0], id);
    } else {
      RunSpaced(cfg, ss, ls, i - 1, id);
      SpacedAt(cfg, ss, ls, i - 1, id);
    }
  }

  /** Retry spacing. With a clock that never runs backwards, in every run with crashes and
      requeues: any two requests for a row, made after `a` and `b` recorded failures, are at
      least `backoff[min(j, len - 1)]` summed over `a < j <= b` seconds apart, although a
      requeue forgets the retry time. Requests repeating a crashed attempt have `a == b`. */
  lemma RetriesSpaced(cfg: Config, ss: seq<Sys>, ls: seq<Label>, n: nat, i: nat, j: nat, id: nat)
    requires IsRun(cfg, ss, ls) && OrderlyRun(ss, ls) && ForwardRun(ss, ls) && Init(ss[0]) && n <= |ls|
    requires i < j && SendOf(ss[n].log, i, id) && SendOf(ss[n].log, j, id)
    ensures Apart(cfg, ss[n].log, i, j)
  {
    RunSpaced(cfg, ss, ls, n, id);
  }

  /** The requests of a row that do not repeat a crashed attempt are numbered 0, 1, 2, ...
      without a hole, so request number `b` is the (b+1)-th of them, and it comes at least
      the sum of the first `b` configured delays after some request number 0. */
  lemma NthAttempt(cfg: Config, ss: seq<Sys>, ls: seq<Label>, n: nat, j: nat, id: nat, k: nat) returns (i: nat)
    requires IsRun(cfg, ss, ls) && OrderlyRun(ss, ls) && ForwardRun(ss, ls) && Init(ss[0]) && n <= |ls|
    requires SendOf(ss[n].log, j, id) && k < AttemptAt(ss[n].log, j)
    ensures i < j && SendOf(ss[n].log, i, id) && AttemptAt(ss[n].log, i) == k
    ensures ss[n].log[i].at + Gap(cfg.worker.backoff, k, AttemptAt(ss[n].log, j)) * MICROS_PER_SECOND <= ss[n].log[j].at
  {
    RunSpaced(cfg, ss, ls, n, id);
    var log := ss[n].log;
    assert Tried(log, j, id, k);
    i :| 0 <= i < j && SendOf(log, i, id) && AttemptAt(log, i) == k;
    assert Apart(cfg, log, i, j);
  }
}
