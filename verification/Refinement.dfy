/** The imperative worker and the step system agree: whatever `RunForever` does, and however it
    ends, is a run. */
module Refinement {
  import opened Wrappers
  import opened Timestamps
  import opened Table
  import opened WorkerRules
  import opened Delivery
  import opened QueueStore
  import opened WorkerLoop
  import Client

  /** What the environment deals one item: a lookup, shpd's reaction, the clock, and exceptions
      from elsewhere. */
  datatype Deal = Deal(lookup: map<string, string>, created: Option<string>, wire: Client.Wire, now: Instant,
                       trouble: Trouble)

  function TurnOf(cfg: Config, item: Row, deal: Deal): Turn {
    Turn(item.mail.dsId in deal.lookup, cfg.parses(item.mail.raw), Client.Receive(deal.wire), deal.now, deal.trouble)
  }

  function ActionOf(cfg: Config, item: Row, deal: Deal): Action {
    TurnAction(cfg.worker, item, TurnOf(cfg, item, deal))
  }

  /** The item gets as far as a request. */
  predicate Requested(cfg: Config, item: Row, deal: Deal) {
    !deal.trouble.BeforeRequest? && item.mail.dsId in deal.lookup && cfg.parses(item.mail.raw)
  }

  /** The steps of the step system that processing one item takes when no exception escapes. */
  function ItemLabels(cfg: Config, w: nat, item: Row, deal: Deal): seq<Label> {
    if item.mail.dsId !in deal.lookup then [Clock(deal.now), Unknown(w, deal.lookup)]
    else if !cfg.parses(item.mail.raw) then [Clock(deal.now), Unparsable(w, deal.lookup)]
    else [Clock(deal.now), Send(w, deal.lookup, deal.created, deal.wire), Settle(w)]
  }

  /** And when one does: the worker dies with the item in hand. */
  function EscapeLabels(cfg: Config, w: nat, item: Row, deal: Deal): seq<Label> {
    if Requested(cfg, item, deal)
    then [Clock(deal.now), Send(w, deal.lookup, deal.created, deal.wire), Crash(w)]
    else [Clock(deal.now), Crash(w)]
  }

  function RecordsOf(cfg: Config, records: map<(string, string), string>, item: Row, deal: Deal)
    : map<(string, string), string>
  {
    if Requested(cfg, item, deal)
    then RecordsAfter(records, deal.lookup[item.mail.dsId], Header(item.mail.key), deal.created)
    else records
  }

  /** The deal is one shpd and the lookup can make. */
  predicate Dealt(cfg: Config, records: map<(string, string), string>, item: Row, deal: Deal) {
    && Admissible(cfg, deal.lookup)
    && (Requested(cfg, item, deal) ==>
          ServerAllows(records, deal.lookup[item.mail.dsId], Header(item.mail.key), deal.created, deal.wire))
  }

  /** Run the labels from `s`, as far as each is enabled. */
  function Exec(cfg: Config, s: Sys, ls: seq<Label>): Option<Sys>
    decreases |ls|
  {
    if ls == [] then Some(s)
    else if WellFormed(s.table) && Enabled(cfg, s, ls[0]) then Exec(cfg, Next(cfg, s, ls[0]), ls[1..])
    else None
  }

  lemma {:induction false} ExecConcat(cfg: Config, s: Sys, a: seq<Label>, b: seq<Label>)
    requires Exec(cfg, s, a).Some?
    ensures Exec(cfg, s, a + b) == Exec(cfg, Exec(cfg, s, a).value, b)
    decreases |a|
  {
    hide Next, Enabled, WellFormed;
    if a == [] {
      assert a + b == b;
    } else {
      assert (a + b)[1..] == a[1..] + b;
      ExecConcat(cfg, Next(cfg, s, a[0]), a[1..], b);
    }
  }

  /** What `Exec` reaches, a run reaches. */
  lemma {:induction false} ExecIsRun(cfg: Config, s: Sys, ls: seq<Label>) returns (ss: seq<Sys>)
    requires Exec(cfg, s, ls).Some?
    ensures IsRun(cfg, ss, ls) && ss[0] == s && ss[|ls|] == Exec(cfg, s, ls).value
    decreases |ls|
  {
    hide Next, Enabled, WellFormed;
    if ls == [] {
      ss := [s];
    } else {
      var rest := ExecIsRun(cfg, Next(cfg, s, ls[0]), ls[1..]);
      ss := [s] + rest;
      forall i | 0 <= i < |ls|
        ensures IsStep(cfg, ss[i], ls[i], ss[i + 1])
      {
        if i > 0 {
          assert ls[i] == ls[1..][i - 1] && ss[i] == rest[i - 1] && ss[i + 1] == rest[i - 1 + 1];
        }
      }
    }
  }

  /** One item, step by step. */
  lemma ItemRefines(cfg: Config, s: Sys, w: nat, deal: Deal)
    requires WellFormed(s.table) && AtItem(s, w) && w in s.workers
    requires Dealt(cfg, s.records, Item(s, w), deal)
    requires !ActionOf(cfg, Item(s, w), deal).Escape?
    ensures var item := Item(s, w);
            var r := Exec(cfg, s, ItemLabels(cfg, w, item, deal));
            && r.Some? && WellFormed(r.value.table)
            && r.value.table ==
                 Carry(s.table, item.id, ActionOf(cfg, item, deal), deal.now)
            && r.value.workers == s.workers[w := Rest(PhaseOf(s, w).todo)]
            && r.value.records == RecordsOf(cfg, s.records, item, deal)
  {
    var item := Item(s, w);
    var s1 := Next(cfg, s, Clock(deal.now));
    assert s1 == s.(now := deal.now) && AtItem(s1, w) && Item(s1, w) == item;
    var ls := ItemLabels(cfg, w, item, deal);
    if Requested(cfg, item, deal) {
      assert ls[1..] == [Send(w, deal.lookup, deal.created, deal.wire), Settle(w)];
      SendSettle(cfg, s1, w, deal);
    } else {
      assert ls[1..] == [ls[1]];
      BuryStep(cfg, s1, w, deal, ls[1]);
    }
  }

  lemma BuryStep(cfg: Config, s: Sys, w: nat, deal: Deal, l: Label)
    requires WellFormed(s.table) && AtItem(s, w) && w in s.workers && s.now == deal.now
    requires Admissible(cfg, deal.lookup) && !Requested(cfg, Item(s, w), deal)
    requires !ActionOf(cfg, Item(s, w), deal).Escape?
    requires l == if Item(s, w).mail.dsId !in deal.lookup then Unknown(w, deal.lookup) else Unparsable(w, deal.lookup)
    ensures var r := Exec(cfg, s, [l]);
            && r.Some? && WellFormed(r.value.table)
            && r.value.table == Carry(s.table, Item(s, w).id,
                                      ActionOf(cfg, Item(s, w), deal), deal.now)
            && r.value.workers == s.workers[w := Rest(PhaseOf(s, w).todo)]
            && r.value.records == s.records
  {
    StepKeepsTable(cfg, s, l);
    assert [l][1..] == [];
    assert Exec(cfg, Next(cfg, s, l), []) == Some(Next(cfg, s, l));
    hide WellFormed, Client.Receive, Decide;
  }

  lemma SendSettle(cfg: Config, s: Sys, w: nat, deal: Deal)
    requires WellFormed(s.table) && AtItem(s, w) && w in s.workers && s.now == deal.now
    requires Dealt(cfg, s.records, Item(s, w), deal) && Requested(cfg, Item(s, w), deal)
    requires !ActionOf(cfg, Item(s, w), deal).Escape?
    ensures var r := Exec(cfg, s, [Send(w, deal.lookup, deal.created, deal.wire), Settle(w)]);
            && r.Some? && WellFormed(r.value.table)
            && r.value.table == Carry(s.table, Item(s, w).id,
                                      ActionOf(cfg, Item(s, w), deal), deal.now)
            && r.value.workers == s.workers[w := Rest(PhaseOf(s, w).todo)]
            && r.value.records == RecordsOf(cfg, s.records, Item(s, w), deal)
  {
    var send := Send(w, deal.lookup, deal.created, deal.wire);
    var s2 := AfterSent(cfg, s, w, deal);
    StepKeepsTable(cfg, s2, Settle(w));
    var s3 := Next(cfg, s2, Settle(w));
    assert [send, Settle(w)][1..] == [Settle(w)];
    assert [Settle(w)][1..] == [];
    assert Exec(cfg, s3, []) == Some(s3);
    assert Exec(cfg, s2, [Settle(w)]) == Some(s3);
    hide WellFormed, Client.Receive, Decide, ServerAllows, RecordsAfter, Header;
    assert s3.workers == s.workers[w := Rest(PhaseOf(s, w).todo)];
  }

  lemma AfterSent(cfg: Config, s: Sys, w: nat, deal: Deal) returns (s2: Sys)
    requires WellFormed(s.table) && AtItem(s, w) && w in s.workers && s.now == deal.now
    requires Dealt(cfg, s.records, Item(s, w), deal) && Requested(cfg, Item(s, w), deal)
    ensures Enabled(cfg, s, Send(w, deal.lookup, deal.created, deal.wire))
    ensures s2 == Next(cfg, s, Send(w, deal.lookup, deal.created, deal.wire))
    ensures s2.table == s.table && s2.now == s.now && HasAnswer(s2, w) && Item(s2, w) == Item(s, w)
    ensures s2.workers == s.workers[w := Busy(PhaseOf(s, w).todo, Some(Client.Receive(deal.wire)))]
    ensures deal.trouble.NoTrouble? ==> Verdict(cfg, s2, w) == ActionOf(cfg, Item(s, w), deal)
    ensures s2.records == RecordsOf(cfg, s.records, Item(s, w), deal)
  {
    s2 := Next(cfg, s, Send(w, deal.lookup, deal.created, deal.wire));
    hide Client.Receive, Decide, WellFormed;
  }

  /** An item that an exception cuts short. */
  lemma EscapeRefines(cfg: Config, s: Sys, w: nat, deal: Deal)
    requires WellFormed(s.table) && AtItem(s, w) && w in s.workers
    requires Dealt(cfg, s.records, Item(s, w), deal) && ActionOf(cfg, Item(s, w), deal).Escape?
    ensures var item := Item(s, w);
            var r := Exec(cfg, s, EscapeLabels(cfg, w, item, deal));
            && r.Some? && r.value.table == s.table
            && r.value.workers == s.workers[w := Down]
            && r.value.records == RecordsOf(cfg, s.records, item, deal)
  {
    var item := Item(s, w);
    var s1 := Next(cfg, s, Clock(deal.now));
    assert s1 == s.(now := deal.now) && AtItem(s1, w) && Item(s1, w) == item;
    FirstLabel(cfg, s, Clock(deal.now), EscapeLabels(cfg, w, item, deal)[1..]);
    if Requested(cfg, item, deal) {
      SendCrash(cfg, s1, w, deal);
    } else {
      CrashOnly(cfg, s1, w);
    }
    hide Exec, Next, Enabled, WellFormed, Dealt, ActionOf, RecordsOf;
    var ls := EscapeLabels(cfg, w, item, deal);
    assert ls == [Clock(deal.now)] + ls[1..];
  }

  lemma CrashOnly(cfg: Config, s: Sys, w: nat)
    requires WellFormed(s.table) && w in s.workers && !PhaseOf(s, w).Down?
    ensures var r := Exec(cfg, s, [Crash(w)]);
            && r.Some? && r.value.table == s.table && r.value.workers == s.workers[w := Down]
            && r.value.records == s.records
  {
    assert [Crash(w)][1..] == [];
    assert Exec(cfg, Next(cfg, s, Crash(w)), []) == Some(Next(cfg, s, Crash(w)));
  }

  lemma SendCrash(cfg: Config, s: Sys, w: nat, deal: Deal)
    requires WellFormed(s.table) && AtItem(s, w) && w in s.workers && s.now == deal.now
    requires Dealt(cfg, s.records, Item(s, w), deal) && Requested(cfg, Item(s, w), deal)
    ensures var r := Exec(cfg, s, [Send(w, deal.lookup, deal.created, deal.wire), Crash(w)]);
            && r.Some? && r.value.table == s.table && r.value.workers == s.workers[w := Down]
            && r.value.records == RecordsOf(cfg, s.records, Item(s, w), deal)
  {
    var send := Send(w, deal.lookup, deal.created, deal.wire);
    var s2 := AfterSent(cfg, s, w, deal);
    FirstLabel(cfg, s, send, [Crash(w)]);
    CrashOnly(cfg, s2, w);
    hide Exec, Next, Enabled, WellFormed, Dealt, RecordsOf;
    assert [send, Crash(w)] == [send] + [Crash(w)];
    assert s2.workers[w := Down] == s.workers[w := Down];
  }

  /** The records after the first `n` items. */
  function RecordsUpTo(cfg: Config, records: map<(string, string), string>, batch: seq<Row>, deals: nat -> Deal, n: nat)
    : map<(string, string), string>
    requires n <= |batch|
  {
    if n == 0 then records
    else RecordsOf(cfg, RecordsUpTo(cfg, records, batch, deals, n - 1), batch[n - 1], deals(n - 1))
  }

  function LabelsUpTo(cfg: Config, w: nat, batch: seq<Row>, deals: nat -> Deal, n: nat): seq<Label>
    requires n <= |batch|
  {
    if n == 0 then [] else LabelsUpTo(cfg, w, batch, deals, n - 1) + ItemLabels(cfg, w, batch[n - 1], deals(n - 1))
  }

  /** The deals of the first `n` items are possible. */
  predicate DealtUpTo(cfg: Config, records: map<(string, string), string>, batch: seq<Row>, deals: nat -> Deal, n: nat)
    requires n <= |batch|
  {
    forall k: nat | k < n :: Dealt(cfg, RecordsUpTo(cfg, records, batch, deals, k), batch[k], deals(k))
  }

  /** The loop sees what the environment deals. */
  predicate Shows(cfg: Config, batch: seq<Row>, deals: nat -> Deal, env: nat -> Turn) {
    forall k: nat | k < |batch| :: env(k) == TurnOf(cfg, batch[k], deals(k))
  }

  /** Where the worker stands with `n` items done. */
  function PhaseAfter(batch: seq<Row>, n: nat): Phase
    requires n <= |batch|
  {
    if n == |batch| then Idle else Busy(batch[n..], None)
  }

  predicate NoneEscapes(cfg: Config, batch: seq<Row>, env: nat -> Turn, n: nat)
    requires n <= |batch|
  {
    forall k: nat | k < n :: !TurnAction(cfg.worker, batch[k], env(k)).Escape?
  }

  predicate Reached(cfg: Config, s: Sys, w: nat, batch: seq<Row>, env: nat -> Turn, deals: nat -> Deal, n: nat, r: Sys)
    requires n <= |batch|
  {
    && WellFormed(r.table)
    && r.table == AfterItems(cfg.worker, s.table, batch, env, n)
    && r.workers == s.workers[w := PhaseAfter(batch, n)]
    && r.records == RecordsUpTo(cfg, s.records, batch, deals, n)
  }

  lemma {:induction false} BatchRefines(cfg: Config, s: Sys, w: nat, batch: seq<Row>, env: nat -> Turn,
                                        deals: nat -> Deal, n: nat)
    requires WellFormed(s.table) && w in s.workers && s.workers[w] == PhaseAfter(batch, 0) && n <= |batch|
    requires DealtUpTo(cfg, s.records, batch, deals, n) && Shows(cfg, batch, deals, env) && NoneEscapes(cfg, batch, env, n)
    ensures var r := Exec(cfg, s, LabelsUpTo(cfg, w, batch, deals, n));
            r.Some? && Reached(cfg, s, w, batch, env, deals, n, r.value)
  {
    hide *;
    if n == 0 {
      NothingYet(cfg, s, w, batch, env, deals);
    } else {
      FewerDealt(cfg, s, batch, env, deals, n);
      BatchRefines(cfg, s, w, batch, env, deals, n - 1);
      var r := Exec(cfg, s, LabelsUpTo(cfg, w, batch, deals, n - 1)).value;
      OneMoreItem(cfg, s, w, batch, env, deals, n, r);
      ExecConcat(cfg, s, LabelsUpTo(cfg, w, batch, deals, n - 1), ItemLabels(cfg, w, batch[n - 1], deals(n - 1)));
      LabelsStep(cfg, w, batch, deals, n);
    }
  }

  lemma FewerDealt(cfg: Config, s: Sys, batch: seq<Row>, env: nat -> Turn, deals: nat -> Deal, n: nat)
    requires 0 < n <= |batch| && DealtUpTo(cfg, s.records, batch, deals, n) && NoneEscapes(cfg, batch, env, n)
    ensures DealtUpTo(cfg, s.records, batch, deals, n - 1) && NoneEscapes(cfg, batch, env, n - 1)
  {
  }

  lemma LabelsStep(cfg: Config, w: nat, batch: seq<Row>, deals: nat -> Deal, n: nat)
    requires 0 < n <= |batch|
    ensures LabelsUpTo(cfg, w, batch, deals, n) ==
            LabelsUpTo(cfg, w, batch, deals, n - 1) + ItemLabels(cfg, w, batch[n - 1], deals(n - 1))
  {
    hide ItemLabels;
  }

  lemma NothingYet(cfg: Config, s: Sys, w: nat, batch: seq<Row>, env: nat -> Turn, deals: nat -> Deal)
    requires WellFormed(s.table) && w in s.workers && s.workers[w] == PhaseAfter(batch, 0)
    ensures Exec(cfg, s, LabelsUpTo(cfg, w, batch, deals, 0)) == Some(s)
    ensures Reached(cfg, s, w, batch, env, deals, 0, s)
  {
    hide WellFormed;
    assert s.workers[w := PhaseAfter(batch, 0)] == s.workers;
  }

  /** With `k` items done, item `k` is in hand. */
  lemma NextInHand(cfg: Config, s: Sys, w: nat, batch: seq<Row>, env: nat -> Turn, deals: nat -> Deal, k: nat, r: Sys)
    requires w in s.workers && k < |batch| && DealtUpTo(cfg, s.records, batch, deals, k + 1)
    requires Shows(cfg, batch, deals, env) && Reached(cfg, s, w, batch, env, deals, k, r)
    ensures WellFormed(r.table) && w in r.workers && AtItem(r, w) && Item(r, w) == batch[k]
    ensures Dealt(cfg, r.records, batch[k], deals(k))
    ensures ActionOf(cfg, batch[k], deals(k)) == TurnAction(cfg.worker, batch[k], env(k)) && env(k).now == deals(k).now
    ensures Rest(PhaseOf(r, w).todo) == PhaseAfter(batch, k + 1)
    ensures r.workers[w := PhaseAfter(batch, k + 1)] == s.workers[w := PhaseAfter(batch, k + 1)]
    ensures r.workers[w := Down] == s.workers[w := Down]
    ensures r.table == AfterItems(cfg.worker, s.table, batch, env, k)
    ensures r.records == RecordsUpTo(cfg, s.records, batch, deals, k)
  {
    hide TurnAction, Dealt, RecordsUpTo, WellFormed, AfterItems;
  }

  lemma OneMoreItem(cfg: Config, s: Sys, w: nat, batch: seq<Row>, env: nat -> Turn, deals: nat -> Deal, n: nat, r: Sys)
    requires w in s.workers && 0 < n <= |batch| && DealtUpTo(cfg, s.records, batch, deals, n)
    requires Shows(cfg, batch, deals, env) && NoneEscapes(cfg, batch, env, n)
    requires Reached(cfg, s, w, batch, env, deals, n - 1, r)
    ensures var r' := Exec(cfg, r, ItemLabels(cfg, w, batch[n - 1], deals(n - 1)));
            r'.Some? && Reached(cfg, s, w, batch, env, deals, n, r'.value)
  {
    hide *;
    LastDoesNotEscape(cfg, batch, env, n);
    NextInHand(cfg, s, w, batch, env, deals, n - 1, r);
    ItemRefines(cfg, r, w, deals(n - 1));
    AfterOneMore(cfg.worker, s.table, batch, env, n - 1);
    OneMoreReached(cfg, s, w, batch, env, deals, n, Exec(cfg, r, ItemLabels(cfg, w, batch[n - 1], deals(n - 1))).value);
  }

  lemma LastDoesNotEscape(cfg: Config, batch: seq<Row>, env: nat -> Turn, n: nat)
    requires 0 < n <= |batch| && NoneEscapes(cfg, batch, env, n)
    ensures !TurnAction(cfg.worker, batch[n - 1], env(n - 1)).Escape?
  {
    hide TurnAction;
  }

  lemma OneMoreReached(cfg: Config, s: Sys, w: nat, batch: seq<Row>, env: nat -> Turn, deals: nat -> Deal, n: nat, r: Sys)
    requires 0 < n <= |batch| && WellFormed(r.table)
    requires r.table == AfterItems(cfg.worker, s.table, batch, env, n)
    requires r.workers == s.workers[w := PhaseAfter(batch, n)]
    requires r.records == RecordsOf(cfg, RecordsUpTo(cfg, s.records, batch, deals, n - 1), batch[n - 1], deals(n - 1))
    ensures Reached(cfg, s, w, batch, env, deals, n, r)
  {
    hide WellFormed, AfterItems, RecordsOf, PhaseAfter;
  }

  // ---------------------------------------------------------------- one poll

  /** The items of a poll that get their turn: the finished ones, and the one that fails. */
  function Turns(p: Poll): (n: nat)
    ensures n <= |p.batch|
  {
    if p.finished < |p.batch| then p.finished + 1 else p.finished
  }

  function PollLabels(cfg: Config, w: nat, now: Instant, p: Poll, deals: nat -> Deal): seq<Label> {
    if p.failed then [Clock(now)]
    else
      [Clock(now), Dequeue(w, IdsOf(p.batch))] + (LabelsUpTo(cfg, w, p.batch, deals, p.finished) +
      (if Complete(p) then [] else EscapeLabels(cfg, w, p.batch[p.finished], deals(p.finished))))
  }

  /** What a poll leaves: its table, the worker idle or dead, shpd's records. */
  predicate PollReached(cfg: Config, s: Sys, w: nat, env: nat -> Turn, deals: nat -> Deal, p: Poll, r: Sys) {
    && WellFormed(r.table)
    && r.table == AfterPoll(cfg.worker, s.table, env, p)
    && r.workers == s.workers[w := if Complete(p) then Idle else Down]
    && r.records == RecordsUpTo(cfg, s.records, p.batch, deals, Turns(p))
  }

  /** Whatever one poll meets, a failing query or an exception from any item included: the
      step system has a run from the same table that leaves the same table, with the worker
      idle again, or dead after the exception, and the same records at shpd. */
  lemma TickRefines(cfg: Config, s: Sys, w: nat, now: Instant, env: nat -> Turn, deals: nat -> Deal, p: Poll)
    requires WellFormed(s.table) && w in s.workers && s.workers[w].Idle?
    requires IsPoll(cfg.worker, s.table, now, env, p)
    requires DealtUpTo(cfg, s.records, p.batch, deals, Turns(p)) && Shows(cfg, p.batch, deals, env)
    ensures var r := Exec(cfg, s, PollLabels(cfg, w, now, p, deals));
            r.Some? && PollReached(cfg, s, w, env, deals, p, r.value)
  {
    var s1 := Next(cfg, s, Clock(now));
    assert s1 == s.(now := now);
    if p.failed {
      FirstLabel(cfg, s, Clock(now), []);
      FailedPoll(cfg, s, s1, w, now, env, deals, p);
    } else {
      var ids := IdsOf(p.batch);
      assert Snapshots(s.table, ids) == p.batch;
      assert NoneEscapes(cfg, p.batch, env, p.finished);
      var s2 := Fetch(cfg, s1, w, ids);
      FetchedPoll(cfg, s, s1, s2, w, now, env, deals, p);
    }
  }

  lemma FailedPoll(cfg: Config, s: Sys, s1: Sys, w: nat, now: Instant, env: nat -> Turn, deals: nat -> Deal, p: Poll)
    requires p.failed && p.batch == [] && p.finished == 0 && WellFormed(s.table)
    requires w in s.workers && s.workers[w].Idle? && s1 == s.(now := now)
    requires Exec(cfg, s, [Clock(now)] + []) == Exec(cfg, s1, [])
    ensures var r := Exec(cfg, s, PollLabels(cfg, w, now, p, deals));
            r.Some? && PollReached(cfg, s, w, env, deals, p, r.value)
  {
    hide WellFormed, Next, Enabled;
    assert [Clock(now)] + [] == [Clock(now)];
    assert s.workers[w := Idle] == s.workers;
    assert Exec(cfg, s1, []) == Some(s1);
  }

  lemma FetchedPoll(cfg: Config, s: Sys, s1: Sys, s2: Sys, w: nat, now: Instant, env: nat -> Turn,
                    deals: nat -> Deal, p: Poll)
    requires !p.failed && WellFormed(s.table) && w in s.workers
    requires Enabled(cfg, s, Clock(now)) && s1 == Next(cfg, s, Clock(now)) && s1 == s.(now := now)
    requires Enabled(cfg, s1, Dequeue(w, IdsOf(p.batch))) && s2 == Next(cfg, s1, Dequeue(w, IdsOf(p.batch)))
    requires WellFormed(s2.table) && s2.table == SetInFlight(s.table, IdsOf(p.batch)) && s2.records == s.records
    requires s2.workers == s.workers[w := PhaseAfter(p.batch, 0)]
    requires DealtUpTo(cfg, s.records, p.batch, deals, Turns(p)) && Shows(cfg, p.batch, deals, env)
    requires NoneEscapes(cfg, p.batch, env, p.finished)
    requires !Complete(p) ==> TurnAction(cfg.worker, p.batch[p.finished], env(p.finished)).Escape?
    ensures var r := Exec(cfg, s, PollLabels(cfg, w, now, p, deals));
            r.Some? && PollReached(cfg, s, w, env, deals, p, r.value)
  {
    var batch, ids, n := p.batch, IdsOf(p.batch), p.finished;
    assert DealtUpTo(cfg, s.records, batch, deals, n);
    hide *;
    var labels := LabelsUpTo(cfg, w, batch, deals, n);
    BatchRefines(cfg, s2, w, batch, env, deals, n);
    var s3 := Exec(cfg, s2, labels).value;
    var last: seq<Label> := [];
    if n == |batch| {
      ExecNothing(cfg, s3);
    } else {
      CompleteIs(p);
      last := EscapeLabels(cfg, w, batch[n], deals(n));
      CutShort(cfg, s2, w, batch, env, deals, n, s3);
    }
    ExecConcat(cfg, s2, labels, last);
    FirstLabel(cfg, s1, Dequeue(w, ids), labels + last);
    FirstLabel(cfg, s, Clock(now), [Dequeue(w, ids)] + (labels + last));
    PollSplit(cfg, w, now, p, deals, labels, last);
    PollAdds(cfg, s, s2, s3, w, env, deals, p, Exec(cfg, s3, last).value);
  }

  lemma ExecNothing(cfg: Config, s: Sys)
    ensures Exec(cfg, s, []) == Some(s)
  {
  }

  lemma CompleteIs(p: Poll)
    ensures Complete(p) <==> p.finished == |p.batch|
    ensures !Complete(p) ==> Turns(p) == p.finished + 1
  {
  }

  lemma PollSplit(cfg: Config, w: nat, now: Instant, p: Poll, deals: nat -> Deal, labels: seq<Label>, last: seq<Label>)
    requires !p.failed && labels == LabelsUpTo(cfg, w, p.batch, deals, p.finished)
    requires last == if p.finished == |p.batch| then [] else EscapeLabels(cfg, w, p.batch[p.finished], deals(p.finished))
    ensures PollLabels(cfg, w, now, p, deals) == [Clock(now)] + ([Dequeue(w, IdsOf(p.batch))] + (labels + last))
  {
    hide LabelsUpTo, EscapeLabels;
    var d := Dequeue(w, IdsOf(p.batch));
    assert [Clock(now), d] + (labels + last) == [Clock(now)] + ([d] + (labels + last));
  }

  /** The item that fails takes the worker down and changes no row. */
  lemma CutShort(cfg: Config, s: Sys, w: nat, batch: seq<Row>, env: nat -> Turn, deals: nat -> Deal, n: nat, r: Sys)
    requires w in s.workers && n < |batch| && DealtUpTo(cfg, s.records, batch, deals, n + 1)
    requires Shows(cfg, batch, deals, env) && Reached(cfg, s, w, batch, env, deals, n, r)
    requires TurnAction(cfg.worker, batch[n], env(n)).Escape?
    ensures var r' := Exec(cfg, r, EscapeLabels(cfg, w, batch[n], deals(n)));
            && r'.Some? && r'.value.table == r.table && r'.value.workers == s.workers[w := Down]
            && r'.value.records == RecordsUpTo(cfg, s.records, batch, deals, n + 1)
  {
    hide Next, Enabled, TurnAction, ActionOf, Dealt, RecordsOf, EscapeLabels, WellFormed, Exec;
    hide DealtUpTo, Shows, PhaseAfter, AtItem, Item, Rest, AfterItems;
    NextInHand(cfg, s, w, batch, env, deals, n, r);
    EscapeRefines(cfg, r, w, deals(n));
  }

  lemma PollAdds(cfg: Config, s: Sys, s2: Sys, s3: Sys, w: nat, env: nat -> Turn, deals: nat -> Deal, p: Poll, r: Sys)
    requires !p.failed && w in s.workers
    requires s2.table == SetInFlight(s.table, IdsOf(p.batch)) && s2.records == s.records
    requires s2.workers == s.workers[w := PhaseAfter(p.batch, 0)]
    requires Reached(cfg, s2, w, p.batch, env, deals, p.finished, s3)
    requires if p.finished == |p.batch| then r == s3
             else r.table == s3.table && r.workers == s2.workers[w := Down]
                  && r.records == RecordsUpTo(cfg, s2.records, p.batch, deals, p.finished + 1)
    ensures PollReached(cfg, s, w, env, deals, p, r)
  {
    hide WellFormed, AfterItems, RecordsUpTo, SetInFlight;
  }

  lemma FirstLabel(cfg: Config, s: Sys, l: Label, ls: seq<Label>)
    requires WellFormed(s.table) && Enabled(cfg, s, l)
    ensures Exec(cfg, s, [l] + ls) == Exec(cfg, Next(cfg, s, l), ls)
  {
    hide WellFormed, Enabled, Next;
    assert ([l] + ls)[1..] == ls;
  }

  lemma Fetch(cfg: Config, s: Sys, w: nat, ids: seq<nat>) returns (s1: Sys)
    requires WellFormed(s.table) && w in s.workers && PhaseOf(s, w).Idle?
    requires IsBatch(s.table, s.now, cfg.worker.batchSize, ids)
    ensures Enabled(cfg, s, Dequeue(w, ids)) && s1 == Next(cfg, s, Dequeue(w, ids)) && WellFormed(s1.table)
    ensures s1.table == SetInFlight(s.table, ids) && s1.records == s.records
    ensures s1.workers == s.workers[w := PhaseAfter(Snapshots(s.table, ids), 0)]
  {
    s1 := Next(cfg, s, Dequeue(w, ids));
    StepKeepsTable(cfg, s, Dequeue(w, ids));
    var batch := Snapshots(s.table, ids);
    assert batch[0..] == batch;
    hide IsBatch, WellFormed;
  }

  // ---------------------------------------------------------------- the whole life of a worker

  /** The records after the first `n` polls. */
  function RecordsAfterPolls(cfg: Config, records: map<(string, string), string>, polls: seq<Poll>,
                        deals: nat -> nat -> Deal, n: nat)
    : map<(string, string), string>
    requires n <= |polls|
  {
    if n == 0 then records
    else RecordsUpTo(cfg, RecordsAfterPolls(cfg, records, polls, deals, n - 1), polls[n - 1].batch, deals(n - 1),
                     Turns(polls[n - 1]))
  }

  /** Every deal of every poll is possible, and is what the loop sees. */
  predicate RunDealt(cfg: Config, records: map<(string, string), string>, polls: seq<Poll>, deals: nat -> nat -> Deal,
                     env: nat -> nat -> Turn) {
    forall n: nat | n < |polls| ::
      && DealtUpTo(cfg, RecordsAfterPolls(cfg, records, polls, deals, n), polls[n].batch, deals(n), Turns(polls[n]))
      && Shows(cfg, polls[n].batch, deals(n), env(n))
  }

  function RunLabels(cfg: Config, w: nat, clock: nat -> Instant, polls: seq<Poll>, deals: nat -> nat -> Deal, n: nat)
    : seq<Label>
    requires n <= |polls|
  {
    if n == 0 then [Start(w)]
    else RunLabels(cfg, w, clock, polls, deals, n - 1) + PollLabels(cfg, w, clock(n - 1), polls[n - 1], deals(n - 1))
  }

  predicate RunReached(cfg: Config, s: Sys, w: nat, env: nat -> nat -> Turn, deals: nat -> nat -> Deal,
                       polls: seq<Poll>, n: nat, r: Sys)
    requires n <= |polls|
  {
    && WellFormed(r.table)
    && r.table == AfterPolls(cfg.worker, RequeueInFlight(s.table), env, polls, n)
    && r.workers == s.workers[w := if n > 0 && !Complete(polls[n - 1]) then Down else Idle]
    && r.records == RecordsAfterPolls(cfg, s.records, polls, deals, n)
  }

  lemma {:induction false} PollsRefine(cfg: Config, s: Sys, w: nat, clock: nat -> Instant, env: nat -> nat -> Turn,
                                       fails: nat -> bool, deals: nat -> nat -> Deal, polls: seq<Poll>, n: nat)
    requires WellFormed(s.table) && PhaseOf(s, w).Down? && n <= |polls|
    requires ArePolls(cfg.worker, RequeueInFlight(s.table), clock, env, fails, polls)
    requires RunDealt(cfg, s.records, polls, deals, env)
    ensures var r := Exec(cfg, s, RunLabels(cfg, w, clock, polls, deals, n));
            r.Some? && RunReached(cfg, s, w, env, deals, polls, n, r.value)
  {
    hide *;
    if n == 0 {
      Starts(cfg, s, w, clock, env, deals, polls);
    } else {
      PollsRefine(cfg, s, w, clock, env, fails, deals, polls, n - 1);
      var r := Exec(cfg, s, RunLabels(cfg, w, clock, polls, deals, n - 1)).value;
      OneMorePollRefines(cfg, s, w, clock, env, fails, deals, polls, n, r);
      ExecConcat(cfg, s, RunLabels(cfg, w, clock, polls, deals, n - 1),
                 PollLabels(cfg, w, clock(n - 1), polls[n - 1], deals(n - 1)));
      RunLabelsStep(cfg, w, clock, polls, deals, n);
    }
  }

  lemma RunLabelsStep(cfg: Config, w: nat, clock: nat -> Instant, polls: seq<Poll>, deals: nat -> nat -> Deal, n: nat)
    requires 0 < n <= |polls|
    ensures RunLabels(cfg, w, clock, polls, deals, n) ==
            RunLabels(cfg, w, clock, polls, deals, n - 1)
            + PollLabels(cfg, w, clock(n - 1), polls[n - 1], deals(n - 1))
  {
    hide PollLabels;
  }

  lemma Starts(cfg: Config, s: Sys, w: nat, clock: nat -> Instant, env: nat -> nat -> Turn,
               deals: nat -> nat -> Deal, polls: seq<Poll>)
    requires WellFormed(s.table) && PhaseOf(s, w).Down?
    ensures var r := Exec(cfg, s, RunLabels(cfg, w, clock, polls, deals, 0));
            r.Some? && RunReached(cfg, s, w, env, deals, polls, 0, r.value)
  {
    StepKeepsTable(cfg, s, Start(w));
    assert [Start(w)][1..] == [];
    assert Exec(cfg, Next(cfg, s, Start(w)), []) == Some(Next(cfg, s, Start(w)));
    hide WellFormed;
  }

  /** What holds before poll `n - 1`. */
  lemma BeforePoll(cfg: Config, s: Sys, w: nat, clock: nat -> Instant, env: nat -> nat -> Turn, fails: nat -> bool,
                   deals: nat -> nat -> Deal, polls: seq<Poll>, n: nat, r: Sys)
    requires WellFormed(s.table) && 0 < n <= |polls|
    requires ArePolls(cfg.worker, RequeueInFlight(s.table), clock, env, fails, polls)
    requires RunDealt(cfg, s.records, polls, deals, env)
    requires RunReached(cfg, s, w, env, deals, polls, n - 1, r)
    ensures WellFormed(r.table) && w in r.workers && r.workers[w].Idle?
    ensures IsPoll(cfg.worker, r.table, clock(n - 1), env(n - 1), polls[n - 1])
    ensures DealtUpTo(cfg, r.records, polls[n - 1].batch, deals(n - 1), Turns(polls[n - 1]))
    ensures Shows(cfg, polls[n - 1].batch, deals(n - 1), env(n - 1))
  {
    assert PollAt(cfg.worker, RequeueInFlight(s.table), clock, env, fails, polls, n - 1);
    hide WellFormed, IsPoll, AfterPolls, DealtUpTo, Shows, RecordsAfterPolls, RequeueInFlight;
  }

  lemma OneMorePollRefines(cfg: Config, s: Sys, w: nat, clock: nat -> Instant, env: nat -> nat -> Turn,
                           fails: nat -> bool, deals: nat -> nat -> Deal, polls: seq<Poll>, n: nat, r: Sys)
    requires WellFormed(s.table) && 0 < n <= |polls|
    requires ArePolls(cfg.worker, RequeueInFlight(s.table), clock, env, fails, polls)
    requires RunDealt(cfg, s.records, polls, deals, env)
    requires RunReached(cfg, s, w, env, deals, polls, n - 1, r)
    ensures var r' := Exec(cfg, r, PollLabels(cfg, w, clock(n - 1), polls[n - 1], deals(n - 1)));
            r'.Some? && RunReached(cfg, s, w, env, deals, polls, n, r'.value)
  {
    hide *;
    BeforePoll(cfg, s, w, clock, env, fails, deals, polls, n, r);
    TickRefines(cfg, r, w, clock(n - 1), env(n - 1), deals(n - 1), polls[n - 1]);
    AfterOnePoll(cfg, s, w, env, deals, polls, n, r,
                 Exec(cfg, r, PollLabels(cfg, w, clock(n - 1), polls[n - 1], deals(n - 1))).value);
  }

  lemma AfterOnePoll(cfg: Config, s: Sys, w: nat, env: nat -> nat -> Turn, deals: nat -> nat -> Deal,
                     polls: seq<Poll>, n: nat, r: Sys, r': Sys)
    requires 0 < n <= |polls| && RunReached(cfg, s, w, env, deals, polls, n - 1, r)
    requires PollReached(cfg, r, w, env(n - 1), deals(n - 1), polls[n - 1], r')
    ensures RunReached(cfg, s, w, env, deals, polls, n, r')
  {
    hide WellFormed, AfterPoll, RecordsUpTo, RequeueInFlight, Turns;
  }

  /** The steps a worker takes from its start to its end: a stop between polls, or a crash. */
  function LifeLabels(cfg: Config, w: nat, clock: nat -> Instant, polls: seq<Poll>, deals: nat -> nat -> Deal)
    : seq<Label>
  {
    RunLabels(cfg, w, clock, polls, deals, |polls|) + if AllComplete(polls) then [Stop(w)] else []
  }

  /** Whatever `RunForever` meets and however it ends, the step system has a run from the same
      table that leaves the same table, with the worker down and the same records at shpd. */
  lemma RunForeverRefines(cfg: Config, s: Sys, w: nat, clock: nat -> Instant, env: nat -> nat -> Turn,
                          fails: nat -> bool, deals: nat -> nat -> Deal, polls: seq<Poll>)
    requires WellFormed(s.table) && PhaseOf(s, w).Down?
    requires ArePolls(cfg.worker, RequeueInFlight(s.table), clock, env, fails, polls)
    requires RunDealt(cfg, s.records, polls, deals, env)
    ensures var r := Exec(cfg, s, LifeLabels(cfg, w, clock, polls, deals));
            && r.Some?
            && r.value.table == AfterPolls(cfg.worker, RequeueInFlight(s.table), env, polls, |polls|)
            && r.value.workers == s.workers[w := Down]
            && r.value.records == RecordsAfterPolls(cfg, s.records, polls, deals, |polls|)
  {
    hide *;
    var labels := RunLabels(cfg, w, clock, polls, deals, |polls|);
    PollsRefine(cfg, s, w, clock, env, fails, deals, polls, |polls|);
    var r := Exec(cfg, s, labels).value;
    AfterAllPolls(cfg, s, w, clock, env, fails, deals, polls, r);
    var last: seq<Label> := [];
    if AllComplete(polls) {
      last := [Stop(w)];
      StopsNow(cfg, r, w);
      assert s.workers[w := Idle][w := Down] == s.workers[w := Down];
    } else {
      ExecNothing(cfg, r);
    }
    ExecConcat(cfg, s, labels, last);
    LifeIs(cfg, w, clock, polls, deals, last);
  }

  lemma LifeIs(cfg: Config, w: nat, clock: nat -> Instant, polls: seq<Poll>, deals: nat -> nat -> Deal, last: seq<Label>)
    requires last == if AllComplete(polls) then [Stop(w)] else []
    ensures LifeLabels(cfg, w, clock, polls, deals) == RunLabels(cfg, w, clock, polls, deals, |polls|) + last
  {
    hide RunLabels, AllComplete;
  }

  lemma AfterAllPolls(cfg: Config, s: Sys, w: nat, clock: nat -> Instant, env: nat -> nat -> Turn, fails: nat -> bool,
                      deals: nat -> nat -> Deal, polls: seq<Poll>, r: Sys)
    requires ArePolls(cfg.worker, RequeueInFlight(s.table), clock, env, fails, polls)
    requires RunReached(cfg, s, w, env, deals, polls, |polls|, r)
    ensures WellFormed(r.table)
    ensures r.table == AfterPolls(cfg.worker, RequeueInFlight(s.table), env, polls, |polls|)
    ensures r.workers == s.workers[w := if AllComplete(polls) then Idle else Down]
    ensures r.records == RecordsAfterPolls(cfg, s.records, polls, deals, |polls|)
  {
    hide WellFormed, AfterPolls, RecordsAfterPolls, RequeueInFlight, PollAt, Complete;
  }

  lemma StopsNow(cfg: Config, s: Sys, w: nat)
    requires WellFormed(s.table) && w in s.workers && s.workers[w].Idle?
    ensures var r := Exec(cfg, s, [Stop(w)]);
            && r.Some? && r.value.table == s.table && r.value.workers == s.workers[w := Down]
            && r.value.records == s.records
  {
    assert [Stop(w)][1..] == [];
    assert Exec(cfg, Next(cfg, s, Stop(w)), []) == Some(Next(cfg, s, Stop(w)));
    hide WellFormed;
  }
}
