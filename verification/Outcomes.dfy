/** What becomes of a row, told from what came over the wire. */
module Outcomes {
  import opened Wrappers
  import opened Timestamps
  import opened Table
  import opened WorkerRules
  import opened Delivery
  import opened Custody
  import Client
  import Address

  /** Step `i` made the request whose result worker `w` holds at `j`. */
  predicate AnswerFrom(ss: seq<Sys>, ls: seq<Label>, i: nat, j: nat, w: nat)
    requires j <= |ls| < |ss|
  {
    && i < j && ls[i].Send? && ls[i].w == w && AtItem(ss[i], w)
    && PhaseOf(ss[j], w) == Busy(PhaseOf(ss[i], w).todo, Some(Client.Receive(ls[i].wire)))
  }

  lemma AnswerStep(cfg: Config, s: Sys, l: Label, s': Sys, w: nat)
    requires IsStep(cfg, s, l, s') && HasAnswer(s', w)
    ensures || (HasAnswer(s, w) && PhaseOf(s', w) == PhaseOf(s, w))
            || (l.Send? && l.w == w && AtItem(s, w)
                && PhaseOf(s', w) == Busy(PhaseOf(s, w).todo, Some(Client.Receive(l.wire))))
  {
    hide Address.ParseRecipient, Client.Receive, KeyFor, ServerAllows, RecordsAfter, Decide, IsBatch, WellFormed, Prunable;
  }

  lemma {:induction false} AnswerHasSend(cfg: Config, ss: seq<Sys>, ls: seq<Label>, j: nat, w: nat) returns (i: nat)
    requires IsRun(cfg, ss, ls) && Init(ss[0]) && j <= |ls| && HasAnswer(ss[j], w)
    ensures AnswerFrom(ss, ls, i, j, w)
  {
    assert |ss| == |ls| + 1;
    hide IsRun, IsStep, HasAnswer, AtItem, PhaseOf, Init, Client.Receive;
    NoAnswerAtStart(ss[0], w);
    AnswerAt(cfg, ss, ls, j - 1, w);
    if HasAnswer(ss[j - 1], w) && PhaseOf(ss[j], w) == PhaseOf(ss[j - 1], w) {
      i := AnswerHasSend(cfg, ss, ls, j - 1, w);
    } else {
      i := j - 1;
    }
  }

  lemma NoAnswerAtStart(s: Sys, w: nat)
    ensures Init(s) ==> !HasAnswer(s, w)
  {
  }

  lemma AnswerAt(cfg: Config, ss: seq<Sys>, ls: seq<Label>, i: nat, w: nat)
    requires IsRun(cfg, ss, ls) && i < |ls| && HasAnswer(ss[i + 1], w)
    ensures || (HasAnswer(ss[i], w) && PhaseOf(ss[i + 1], w) == PhaseOf(ss[i], w))
            || (ls[i].Send? && ls[i].w == w && AtItem(ss[i], w)
                && PhaseOf(ss[i + 1], w) == Busy(PhaseOf(ss[i], w).todo, Some(Client.Receive(ls[i].wire))))
  {
    StepOfRun(cfg, ss, ls, i);
    hide IsStep, HasAnswer, AtItem, Client.Receive;
    AnswerStep(cfg, ss[i], ls[i], ss[i + 1], w);
  }

  /** In every orderly run, a worker that settles a row acts on the result of a request it made
      for that row, and what becomes of the row follows from what came over the wire: column by
      column, as `Becomes` says. */
  lemma SettledByWire(cfg: Config, ss: seq<Sys>, ls: seq<Label>, j: nat) returns (i: nat)
    requires IsRun(cfg, ss, ls) && OrderlyRun(ss, ls) && Init(ss[0]) && j < |ls| && ls[j].Settle?
    ensures HasAnswer(ss[j], ls[j].w) && AnswerFrom(ss, ls, i, j, ls[j].w)
    ensures Item(ss[i], ls[j].w) == Item(ss[j], ls[j].w)
    ensures var id := Item(ss[j], ls[j].w).id;
            && id in ss[j].table.rows && id in ss[j + 1].table.rows
            && ss[j].table.rows[id] == Item(ss[j], ls[j].w).(state := InFlight)
            && Becomes(cfg.worker, ss[j].table.rows[id], ls[i].wire, ss[j].now, ss[j + 1].table.rows[id])
  {
    StepOfRun(cfg, ss, ls, j);
    BatchesDisjoint(cfg, ss, ls, j);
    SettleIs(cfg, ss[j], ls[j], ss[j + 1]);
    i := AnswerHasSend(cfg, ss, ls, j, ls[j].w);
    var item := Item(ss[j], ls[j].w);
    hide IsStep, InCustody, IsRun, Client.Receive, Decide, Carry, Becomes;
    OutcomeOverWire(cfg.worker, ss[j].table, item.id, ls[i].wire, ss[j].now);
  }

  /** Settling carries out the decision on the held row. */
  lemma SettleIs(cfg: Config, s: Sys, l: Label, s': Sys)
    requires IsStep(cfg, s, l, s') && l.Settle? && InCustody(s)
    ensures HasAnswer(s, l.w) && PhaseOf(s, l.w).sent.value.Returned?
    ensures var item := Item(s, l.w);
            && item.id in s.table.rows && s.table.rows[item.id] == item.(state := InFlight)
            && var r := PhaseOf(s, l.w).sent.value.result;
            var action := Decide(cfg.worker, s.table.rows[item.id].attemptCount, r, s.now);
            !action.Escape? && s'.table == Carry(s.table, item.id, action, s.now)
  {
    StepTable(cfg, s, l, s');
    StatementOfFinish(cfg, s, l);
    ItemIsHeld(s, l.w);
    assert HoldsBatch(s.table, s.workers[l.w].todo);
    assert HeldRow(s.table, s.workers[l.w].todo[0]);
    hide Next, IsStep, InCustody, HoldsBatch, Carry, Decide, Statement;
  }

  /** A row that was given up before any request says why, and keeps its mail and attempts. */
  lemma GivenUp(cfg: Config, ss: seq<Sys>, ls: seq<Label>, j: nat)
    requires IsRun(cfg, ss, ls) && OrderlyRun(ss, ls) && Init(ss[0]) && j < |ls|
    requires ls[j].Unknown? || ls[j].Unparsable?
    ensures AtItem(ss[j], ls[j].w)
    ensures var item := Item(ss[j], ls[j].w);
            var reason := if ls[j].Unknown? then UnknownDataSource(item.mail.dsId) else ParseFailure;
            && item.id in ss[j].table.rows && item.id in ss[j + 1].table.rows
            && var r := ss[j + 1].table.rows[item.id];
            r.state == DeadLetter && r.deadLetterReason == Some(reason) && r.lastError == Some(reason)
            && r.attemptCount == item.attemptCount && r.mail == item.mail
  {
    StepOfRun(cfg, ss, ls, j);
    BatchesDisjoint(cfg, ss, ls, j);
    GivenUpStep(cfg, ss[j], ls[j], ss[j + 1]);
  }

  lemma GivenUpStep(cfg: Config, s: Sys, l: Label, s': Sys)
    requires IsStep(cfg, s, l, s') && (l.Unknown? || l.Unparsable?) && InCustody(s)
    ensures AtItem(s, l.w)
    ensures var item := Item(s, l.w);
            var reason := if l.Unknown? then UnknownDataSource(item.mail.dsId) else ParseFailure;
            && item.id in s.table.rows && item.id in s'.table.rows
            && var r := s'.table.rows[item.id];
            r.state == DeadLetter && r.deadLetterReason == Some(reason) && r.lastError == Some(reason)
            && r.attemptCount == item.attemptCount && r.mail == item.mail
  {
    StepTable(cfg, s, l, s');
    StatementOfFinish(cfg, s, l);
    ItemIsHeld(s, l.w);
    assert HoldsBatch(s.table, s.workers[l.w].todo);
    assert HeldRow(s.table, s.workers[l.w].todo[0]);
    hide Next, IsStep, InCustody, HoldsBatch, Carry, Statement;
    BuriedRow(s.table, Item(s, l.w).id, ActionOf(cfg, s, l).value.reason, s.now);
  }

  /** A row delivered at step `j` is deleted by a later prune exactly when the second of its
      delivery lies before the second of the cutoff. */
  lemma PrunedWhenOld(cfg: Config, ss: seq<Sys>, ls: seq<Label>, j: nat, k: nat)
    requires IsRun(cfg, ss, ls) && OrderlyRun(ss, ls) && Init(ss[0]) && j < k < |ls|
    requires ls[j].Settle? && HasAnswer(ss[j], ls[j].w) && ls[k].PruneDelivered?
    requires var id := Item(ss[j], ls[j].w).id;
             && id in ss[j + 1].table.rows && ss[j + 1].table.rows[id].state.Delivered? && id in ss[k].table.rows
    ensures var id := Item(ss[j], ls[j].w).id;
            id !in ss[k + 1].table.rows <==> Seconds(ss[j].now) < Seconds(ls[k].cutoff)
  {
    var id := Item(ss[j], ls[j].w).id;
    var i := SettledByWire(cfg, ss, ls, j);
    var row := ss[j + 1].table.rows[id];
    assert row.deliveredAt == Some(Truncate(ss[j].now));
    Absorbing(cfg, ss, ls, j + 1, k, id);
    assert ss[k].table.rows[id] == row;
    StepOfRun(cfg, ss, ls, k);
    StepTable(cfg, ss[k], ls[k], ss[k + 1]);
    hide IsStep, IsRun, OrderlyRun, Becomes, Enabled, Next;
    TruncateOrder(ss[j].now, ls[k].cutoff);
  }

  lemma TruncateOrder(a: Instant, b: Instant)
    ensures Truncate(a) < Truncate(b) <==> Seconds(a) < Seconds(b)
  {
  }
}
