/** The delivery pipeline as a step system: LMTP sessions, workers, shpd, the operator and
    the clock around one persistent table. Every SQL statement is one step, so a session, a
    worker and a prune may interleave in any order and a worker may die between any two of
    its steps. Each label carries what the environment chose. */
module Delivery {
  import opened Wrappers
  import opened Timestamps
  import opened Table
  import opened WorkerRules
  import Address
  import Keys
  import Json
  import Client

  /** What a run leaves open. `payloads` are the key texts that occur in it: SHA-256 is taken
      to have no collision among them. `messageId` and `parses` stand for the header scan of
      the receiver and the MIME parse of the worker. `home` is the shpd each data source
      lives on; the lookup file may gain and lose entries but never moves one. */
  datatype Config = Config(
    worker: WorkerConfig,
    hash: string -> string,
    payloads: set<string>,
    messageId: Bytes -> Option<string>,
    parses: Bytes -> bool,
    home: map<string, string>)

  ghost predicate ValidConfig(cfg: Config) {
    && (forall p, q | p in cfg.payloads && q in cfg.payloads :: Keys.NoCollision(cfg.hash, p, q))
    && (forall p | p in cfg.payloads :: Keys.HexDigest(cfg.hash(p)))
  }

  /** What `handle_DATA` did with one recipient: passed over it because it no longer parsed
      under the domains allowed then, or enqueued it under a key. */
  datatype Outcome = Skipped(domains: set<string>) | Queued(key: string)

  /** One `handle_DATA` call; `done` holds the outcomes of the recipients so far. */
  datatype Session = Session(sender: string, raw: Bytes, rcpts: seq<string>, done: seq<Outcome>)

  /** A worker process. `todo` starts with the item being processed; `sent` is the result of
      its request once `send` has returned or raised. */
  datatype Phase = Down | Idle | Busy(todo: seq<Row>, sent: Option<Client.SendResult>)

  datatype Event =
    | Acked(sender: string, raw: Bytes, rcpts: seq<string>, done: seq<Outcome>)
    | Sent(item: Row, endpoint: string, header: Option<string>, at: Instant)
    | Retried(id: nat)
    | Closed(id: nat)
    | Cut(id: nat)
    | Restarted(ids: set<nat>)
    | Pruned(rows: map<nat, Row>)

  /** `records` is shpd's store: (endpoint, idempotency key) to the id of the mail record. */
  datatype Sys = Sys(
    table: Table,
    now: Instant,
    workers: map<nat, Phase>,
    sessions: map<nat, Session>,
    records: map<(string, string), string>,
    log: seq<Event>)

  datatype Label =
    | DataBegin(sid: nat, sender: string, raw: Bytes, rcpts: seq<string>)
    | DataStep(sid: nat, domains: set<string>, uuid: string)
    | DataFail(sid: nat)
    | DataAck(sid: nat)
    | Start(w: nat)
    | Stop(w: nat)
    | Crash(w: nat)
    | Dequeue(w: nat, ids: seq<nat>)
    | Unknown(w: nat, lookup: map<string, string>)
    | Unparsable(w: nat, lookup: map<string, string>)
    | Send(w: nat, lookup: map<string, string>, created: Option<string>, wire: Client.Wire)
    | Settle(w: nat)
    | PruneDelivered(cutoff: Instant)
    | Clock(t: Instant)

  predicate Init(s: Sys) {
    s.table == EMPTY && s.workers == map[] && s.sessions == map[] && s.records == map[] && s.log == []
  }

  function PhaseOf(s: Sys, w: nat): Phase {
    if w in s.workers then s.workers[w] else Down
  }

  /** A worker with an item in hand that it has not sent yet. */
  predicate AtItem(s: Sys, w: nat) {
    PhaseOf(s, w).Busy? && PhaseOf(s, w).todo != [] && PhaseOf(s, w).sent.None?
  }

  predicate HasAnswer(s: Sys, w: nat) {
    PhaseOf(s, w).Busy? && PhaseOf(s, w).todo != [] && PhaseOf(s, w).sent.Some?
  }

  function Item(s: Sys, w: nat): Row
    requires AtItem(s, w) || HasAnswer(s, w)
  {
    PhaseOf(s, w).todo[0]
  }

  /** After the head item is done. */
  function Rest(todo: seq<Row>): Phase
    requires todo != []
  {
    if |todo| == 1 then Idle else Busy(todo[1..], None)
  }

  predicate Admissible(cfg: Config, lookup: map<string, string>) {
    forall ds | ds in lookup :: ds in cfg.home && cfg.home[ds] == lookup[ds]
  }

  /** The key `handle_DATA` computes for an accepted recipient. */
  function KeyFor(cfg: Config, p: Address.ParsedAddress, rcpt: string, raw: Bytes, uuid: string): string {
    match cfg.messageId(raw)
    case Some(m) => Keys.IdempotencyKey(cfg.hash, p.domain, Keys.LocalPart(rcpt), m)
    case None => Keys.NOMID + uuid
  }

  function PayloadFor(p: Address.ParsedAddress, rcpt: string, messageId: string): string {
    Keys.Payload(p.domain, Keys.LocalPart(rcpt), messageId)
  }

  function MailFor(cfg: Config, x: Session, rcpt: string, p: Address.ParsedAddress, uuid: string): Mail {
    Mail(x.sender, rcpt, p.dsId, p.mailbox, KeyFor(cfg, p, rcpt, x.raw, uuid), x.raw)
  }

  /** `X-Idempotency-Key`, left out for a mail without a Message-ID. */
  function Header(key: string): Option<string> {
    if Keys.IsNoMid(key) then None else Some(key)
  }

  function RecordsAfter(records: map<(string, string), string>, endpoint: string,
                        header: Option<string>, created: Option<string>): map<(string, string), string> {
    if header.Some? && created.Some? then records[(endpoint, header.value) := created.value] else records
  }

  /** shpd's contract for a keyed request: it stores at most one record per key, and when it
      answers 201 with success the answer carries the id of the stored record. It may store the
      record and still answer with an error, or its answer may be lost. */
  predicate ServerAllows(records: map<(string, string), string>, endpoint: string, header: Option<string>,
                         created: Option<string>, wire: Client.Wire) {
    header.Some? ==>
      var slot := (endpoint, header.value);
      var after := RecordsAfter(records, endpoint, header, created);
      && (created.Some? ==> slot !in records)
      && (wire.Answered? && Client.Confirmed(wire.response) ==>
            slot in after && Client.Reports(wire.response, Json.Text(after[slot])))
  }

  function Verdict(cfg: Config, s: Sys, w: nat): Action
    requires HasAnswer(s, w)
  {
    match PhaseOf(s, w).sent.value
    case Returned(r) => Decide(cfg.worker, Item(s, w).attemptCount, r, s.now)
    case Raised => Escape
  }

  predicate Enabled(cfg: Config, s: Sys, l: Label) {
    match l
    case DataBegin(sid, _, _, _) => sid !in s.sessions
    case DataStep(sid, domains, uuid) =>
      && sid in s.sessions && |s.sessions[sid].done| < |s.sessions[sid].rcpts|
      && (forall d | d in domains :: '/' !in d)
      && var x := s.sessions[sid];
      var rcpt := x.rcpts[|x.done|];
      var p := Address.ParseRecipient(rcpt, domains);
      p.Some? && cfg.messageId(x.raw).Some? ==> PayloadFor(p.value, rcpt, cfg.messageId(x.raw).value) in cfg.payloads
    case DataFail(sid) => sid in s.sessions
    case DataAck(sid) => sid in s.sessions && |s.sessions[sid].done| == |s.sessions[sid].rcpts|
    case Start(w) => PhaseOf(s, w).Down?
    case Stop(w) => PhaseOf(s, w).Idle?
    case Crash(w) => !PhaseOf(s, w).Down?
    case Dequeue(w, ids) => PhaseOf(s, w).Idle? && IsBatch(s.table, s.now, cfg.worker.batchSize, ids)
    case Unknown(w, lookup) =>
      AtItem(s, w) && Admissible(cfg, lookup) && Item(s, w).mail.dsId !in lookup
    case Unparsable(w, lookup) =>
      && AtItem(s, w) && Admissible(cfg, lookup) && Item(s, w).mail.dsId in lookup
      && !cfg.parses(Item(s, w).mail.raw)
    case Send(w, lookup, created, wire) =>
      && AtItem(s, w) && Admissible(cfg, lookup) && Item(s, w).mail.dsId in lookup
      && cfg.parses(Item(s, w).mail.raw)
      && ServerAllows(s.records, lookup[Item(s, w).mail.dsId], Header(Item(s, w).mail.key), created, wire)
    case Settle(w) => HasAnswer(s, w) && !Verdict(cfg, s, w).Escape?
    case PruneDelivered(_) => true
    case Clock(_) => true
  }

  /** `handle_DATA` for one recipient: skip it if it no longer parses, else enqueue it. */
  function AfterRecipient(cfg: Config, s: Sys, sid: nat, domains: set<string>, uuid: string): Sys
    requires WellFormed(s.table)
    requires sid in s.sessions && |s.sessions[sid].done| < |s.sessions[sid].rcpts|
  {
    var x := s.sessions[sid];
    var rcpt := x.rcpts[|x.done|];
    match Address.ParseRecipient(rcpt, domains)
    case None => s.(sessions := s.sessions[sid := x.(done := x.done + [Skipped(domains)])])
    case Some(p) =>
      var mail := MailFor(cfg, x, rcpt, p, uuid);
      s.(table := Insert(s.table, mail, s.now),
         sessions := s.sessions[sid := x.(done := x.done + [Queued(mail.key)])])
  }

  /** Move worker `w` to `phase`. */
  function Move(s: Sys, w: nat, phase: Phase): Sys {
    s.(workers := s.workers[w := phase])
  }

  function Note(s: Sys, e: Event): Sys {
    s.(log := s.log + [e])
  }

  function Bury(s: Sys, w: nat, reason: Reason): Sys
    requires AtItem(s, w)
  {
    Move(s, w, Rest(PhaseOf(s, w).todo)).(table := MarkDeadLetter(s.table, Item(s, w).id, reason))
  }

  function AfterSend(s: Sys, w: nat, endpoint: string, created: Option<string>, wire: Client.Wire): Sys
    requires AtItem(s, w)
  {
    var item := Item(s, w);
    var header := Header(item.mail.key);
    Note(Move(s, w, Busy(PhaseOf(s, w).todo, Some(Client.Receive(wire)))), Sent(item, endpoint, header, s.now))
      .(records := RecordsAfter(s.records, endpoint, header, created))
  }

  function AfterSettle(cfg: Config, s: Sys, w: nat): Sys
    requires HasAnswer(s, w)
  {
    var id, action := Item(s, w).id, Verdict(cfg, s, w);
    Note(Move(s, w, Rest(PhaseOf(s, w).todo)), if action.Retry? then Retried(id) else Closed(id))
      .(table := Carry(s.table, id, action, s.now))
  }

  function AfterCrash(s: Sys, w: nat): Sys {
    if HasAnswer(s, w) then Note(Move(s, w, Down), Cut(Item(s, w).id)) else Move(s, w, Down)
  }

  function Next(cfg: Config, s: Sys, l: Label): Sys
    requires WellFormed(s.table) && Enabled(cfg, s, l)
  {
    match l
    case DataBegin(sid, sender, raw, rcpts) => s.(sessions := s.sessions[sid := Session(sender, raw, rcpts, [])])
    case DataStep(sid, domains, uuid) => AfterRecipient(cfg, s, sid, domains, uuid)
    case DataFail(sid) => s.(sessions := s.sessions - {sid})
    case DataAck(sid) =>
      var x := s.sessions[sid];
      Note(s.(sessions := s.sessions - {sid}), Acked(x.sender, x.raw, x.rcpts, x.done))
    case Start(w) =>
      Note(Move(s, w, Idle).(table := RequeueInFlight(s.table)), Restarted(InFlightIds(s.table)))
    case Stop(w) => Move(s, w, Down)
    case Crash(w) => AfterCrash(s, w)
    case Dequeue(w, ids) =>
      Move(s, w, if ids == [] then Idle else Busy(Snapshots(s.table, ids), None))
        .(table := SetInFlight(s.table, ids))
    case Unknown(w, _) => Bury(s, w, UnknownDataSource(Item(s, w).mail.dsId))
    case Unparsable(w, _) => Bury(s, w, ParseFailure)
    case Send(w, lookup, created, wire) => AfterSend(s, w, lookup[Item(s, w).mail.dsId], created, wire)
    case Settle(w) => AfterSettle(cfg, s, w)
    case PruneDelivered(cutoff) =>
      Note(s.(table := Prune(s.table, cutoff)),
           Pruned(map id | id in s.table.rows && Prunable(s.table.rows[id], cutoff) :: s.table.rows[id]))
    case Clock(t) => s.(now := t)
  }

  // ---------------------------------------------------------------- runs

  predicate IsStep(cfg: Config, s: Sys, l: Label, s': Sys) {
    WellFormed(s.table) && Enabled(cfg, s, l) && s' == Next(cfg, s, l)
  }

  /** `ss[0] -ls[0]-> ss[1] -ls[1]-> ... ss[|ls|]`. */
  predicate IsRun(cfg: Config, ss: seq<Sys>, ls: seq<Label>) {
    |ss| == |ls| + 1 && forall i | 0 <= i < |ls| :: IsStep(cfg, ss[i], ls[i], ss[i + 1])
  }

  lemma StepOfRun(cfg: Config, ss: seq<Sys>, ls: seq<Label>, i: nat)
    requires IsRun(cfg, ss, ls) && i < |ls|
    ensures IsStep(cfg, ss[i], ls[i], ss[i + 1])
  {
  }

  /** The mail a step stores, if it stores one. */
  function MailOf(cfg: Config, s: Sys, l: Label): Option<Mail>
    requires Enabled(cfg, s, l) && l.DataStep?
  {
    var x := s.sessions[l.sid];
    var rcpt := x.rcpts[|x.done|];
    match Address.ParseRecipient(rcpt, l.domains)
    case None => None
    case Some(p) => Some(MailFor(cfg, x, rcpt, p, l.uuid))
  }

  /** The decision a step carries out, if it finishes an item. */
  function ActionOf(cfg: Config, s: Sys, l: Label): Option<Action>
    requires Enabled(cfg, s, l)
  {
    match l
    case Unknown(w, _) => Some(Action.Bury(UnknownDataSource(Item(s, w).mail.dsId)))
    case Unparsable(w, _) => Some(Action.Bury(ParseFailure))
    case Settle(w) => Some(Verdict(cfg, s, w))
    case _ => None
  }

  predicate Finishes(l: Label) {
    l.Settle? || l.Unknown? || l.Unparsable?
  }

  /** The table after a step: the part of `Next` that the statement is about. */
  function Statement(cfg: Config, s: Sys, l: Label): Table
    requires WellFormed(s.table) && Enabled(cfg, s, l)
  {
    if Finishes(l) then Carry(s.table, Item(s, l.w).id, ActionOf(cfg, s, l).value, s.now)
    else
      match l
      case DataStep(_, _, _) => if MailOf(cfg, s, l).None? then s.table else Insert(s.table, MailOf(cfg, s, l).value, s.now)
      case Start(_) => RequeueInFlight(s.table)
      case Dequeue(_, ids) => SetInFlight(s.table, ids)
      case PruneDelivered(cutoff) => Prune(s.table, cutoff)
      case _ => s.table
  }

  lemma NextTable(cfg: Config, s: Sys, l: Label)
    requires WellFormed(s.table) && Enabled(cfg, s, l)
    ensures Next(cfg, s, l).table == Statement(cfg, s, l)
  {
    hide Address.ParseRecipient, Client.Receive, KeyFor, ServerAllows, RecordsAfter, Header, Truncate;
    hide Decide, IsBatch, WellFormed, Insert, RequeueInFlight, SetInFlight, MarkDeadLetter, Prune;
  }

  lemma StatementOfFinish(cfg: Config, s: Sys, l: Label)
    requires WellFormed(s.table) && Enabled(cfg, s, l) && Finishes(l)
    ensures (AtItem(s, l.w) || HasAnswer(s, l.w)) && ActionOf(cfg, s, l).Some?
    ensures Statement(cfg, s, l) == Carry(s.table, Item(s, l.w).id, ActionOf(cfg, s, l).value, s.now)
  {
    hide Verdict, Item, Carry, WellFormed;
  }

  lemma StepTable(cfg: Config, s: Sys, l: Label, s': Sys)
    requires IsStep(cfg, s, l, s')
    ensures WellFormed(s.table) && Enabled(cfg, s, l) && s'.table == Statement(cfg, s, l)
  {
    hide Next, Enabled, WellFormed, Statement;
    NextTable(cfg, s, l);
  }

  /** Every statement keeps the primary key and the unique index, so no run gets stuck on
      a broken table. */
  lemma StepKeepsTable(cfg: Config, s: Sys, l: Label)
    requires WellFormed(s.table) && Enabled(cfg, s, l)
    ensures WellFormed(Next(cfg, s, l).table)
    ensures s.table.nextId <= Next(cfg, s, l).table.nextId
  {
    if !l.DataStep? {
      StepRewrites(cfg, s, l);
      RewriteKeepsIndexes(s.table, Next(cfg, s, l).table);
    }
  }

  /** Only the INSERT adds a row; no other statement touches an id or a mail. */
  lemma StepRewrites(cfg: Config, s: Sys, l: Label)
    requires WellFormed(s.table) && Enabled(cfg, s, l) && !l.DataStep?
    ensures var t' := Next(cfg, s, l).table;
            && t'.nextId == s.table.nextId
            && forall id | id in t'.rows ::
                 id in s.table.rows && t'.rows[id].id == s.table.rows[id].id && t'.rows[id].mail == s.table.rows[id].mail
  {
    NextTable(cfg, s, l);
    if Finishes(l) {
      StatementOfFinish(cfg, s, l);
      CarryKeys(s.table, Item(s, l.w).id, ActionOf(cfg, s, l).value, s.now);
    }
    hide Next, Enabled, MailOf, Verdict, WellFormed, Prunable, Truncate, Carry;
    forall id | id in Statement(cfg, s, l).rows
      ensures id in s.table.rows
      ensures Statement(cfg, s, l).rows[id].id == s.table.rows[id].id
      ensures Statement(cfg, s, l).rows[id].mail == s.table.rows[id].mail
    {
      if Finishes(l) {
        CarryRow(s.table, Item(s, l.w).id, ActionOf(cfg, s, l).value, s.now, id);
      }
    }
  }

  // ------------------------------------------- what one step can do to each part

  /** Only the DELETE removes a row, and only a delivered one old enough. */
  lemma RowRemains(cfg: Config, s: Sys, l: Label, s': Sys, id: nat)
    requires IsStep(cfg, s, l, s') && id in s.table.rows
    ensures id in s'.table.rows || (l.PruneDelivered? && Prunable(s.table.rows[id], l.cutoff))
  {
    StepTable(cfg, s, l, s');
    if Finishes(l) {
      StatementOfFinish(cfg, s, l);
      CarryRow(s.table, Item(s, l.w).id, ActionOf(cfg, s, l).value, s.now, id);
    }
    hide Next, Enabled, IsStep, MailOf, Verdict, Item, Prunable, Truncate, HasKey, Carry;
  }

  /** A row keeps its mail and its arrival time. */
  lemma RowKept(cfg: Config, s: Sys, l: Label, s': Sys, id: nat)
    requires IsStep(cfg, s, l, s') && id in s.table.rows && id in s'.table.rows
    ensures s'.table.rows[id].mail == s.table.rows[id].mail
    ensures s'.table.rows[id].receivedAt == s.table.rows[id].receivedAt
  {
    StepTable(cfg, s, l, s');
    if Finishes(l) {
      StatementOfFinish(cfg, s, l);
      CarryRow(s.table, Item(s, l.w).id, ActionOf(cfg, s, l).value, s.now, id);
    }
    hide Next, Enabled, IsStep, MailOf, Verdict, Item, Prunable, Truncate, HasKey, Carry;
  }

  /** A row becomes delivered only when a worker settles it so. */
  lemma RowDelivered(cfg: Config, s: Sys, l: Label, s': Sys, id: nat)
    requires IsStep(cfg, s, l, s') && id in s.table.rows && id in s'.table.rows
    requires s'.table.rows[id].state.Delivered?
    ensures || (s.table.rows[id].state.Delivered?
                && s'.table.rows[id].deliveredMessageId == s.table.rows[id].deliveredMessageId)
            || (l.Settle? && Item(s, l.w).id == id && Verdict(cfg, s, l.w).Deliver?
                && s'.table.rows[id].deliveredMessageId == Verdict(cfg, s, l.w).messageId)
  {
    StepTable(cfg, s, l, s');
    if Finishes(l) {
      StatementOfFinish(cfg, s, l);
      CarryRow(s.table, Item(s, l.w).id, ActionOf(cfg, s, l).value, s.now, id);
    }
    hide Next, Enabled, IsStep, MailOf, Verdict, Item, Prunable, Truncate, HasKey, Carry;
  }

  /** A row that appears was enqueued. */
  lemma RowAdded(cfg: Config, s: Sys, l: Label, s': Sys, id: nat)
    requires IsStep(cfg, s, l, s') && id !in s.table.rows && id in s'.table.rows
    ensures l.DataStep? && id == s.table.nextId
    ensures var x := s.sessions[l.sid];
            var rcpt := x.rcpts[|x.done|];
            var p := Address.ParseRecipient(rcpt, l.domains);
            p.Some? && s'.table.rows[id] == NewRow(id, MailFor(cfg, x, rcpt, p.value, l.uuid), s.now)
  {
    StepTable(cfg, s, l, s');
    hide Next, IsStep, Verdict, Item, Prunable, Truncate, HasKey, Address.ParseRecipient, KeyFor, WellFormed;
  }

  /** Where a held batch comes from. */
  lemma WorkerStep(cfg: Config, s: Sys, l: Label, s': Sys, w: nat)
    requires IsStep(cfg, s, l, s') && w in s'.workers && s'.workers[w].Busy?
    ensures
      || (w in s.workers && s'.workers[w] == s.workers[w])
      || (l.Dequeue? && l.w == w && l.ids != [] && s'.workers[w] == Busy(Snapshots(s.table, l.ids), None))
      || (l.Send? && l.w == w && w in s.workers
          && s'.workers[w] == Busy(s.workers[w].todo, Some(Client.Receive(l.wire))))
      || ((l.Unknown? || l.Unparsable? || l.Settle?) && l.w == w && w in s.workers
          && |s.workers[w].todo| > 1 && s'.workers[w] == Busy(s.workers[w].todo[1..], None))
  {
  }

  /** The log only grows, by at most one event; records only appear through a request. */
  lemma LogStep(cfg: Config, s: Sys, l: Label, s': Sys)
    requires IsStep(cfg, s, l, s')
    ensures s'.log == s.log || (|s'.log| == |s.log| + 1 && s'.log[..|s.log|] == s.log)
    ensures forall i | 0 <= i < |s.log| :: s'.log[i] == s.log[i]
    ensures forall slot | slot in s.records :: slot in s'.records && s'.records[slot] == s.records[slot]
    ensures forall slot | slot in s'.records && slot !in s.records ::
              l.Send? && |s'.log| == |s.log| + 1 && s'.log[|s.log|].Sent?
              && slot == (s'.log[|s.log|].endpoint, s'.log[|s.log|].header.UnwrapOr(""))
              && s'.log[|s.log|].header.Some?
  {
    hide Address.ParseRecipient, Client.Receive, KeyFor, Truncate, Decide, IsBatch, WellFormed, Prunable;
  }

  lemma {:induction false} RunKeepsTable(cfg: Config, ss: seq<Sys>, ls: seq<Label>, i: nat)
    requires IsRun(cfg, ss, ls) && Init(ss[0]) && i <= |ls|
    ensures WellFormed(ss[i].table)
  {
    if i > 0 {
      RunKeepsTable(cfg, ss, ls, i - 1);
      StepOfRun(cfg, ss, ls, i - 1);
      StepKeepsTable(cfg, ss[i - 1], ls[i - 1]);
    }
  }
}
