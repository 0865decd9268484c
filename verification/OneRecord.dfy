/** One logical mail never becomes two records at shpd, whatever is lost or repeated. */
module OneRecord {
  import opened Wrappers
  import opened Timestamps
  import opened Table
  import opened WorkerRules
  import opened Delivery
  import Address
  import Keys
  import Json
  import Client

  /** The mail columns are what the receiver computes from recipient and raw text. */
  predicate Authentic(cfg: Config, mail: Mail) {
    var domain := Address.DomainOf(mail.recipient);
    var p := Address.ParseRecipient(mail.recipient, {domain});
    && p.Some? && '/' !in domain
    && mail.dsId == p.value.dsId && mail.mailbox == p.value.mailbox
    && match cfg.messageId(mail.raw)
       case None => Keys.IsNoMid(mail.key)
       case Some(m) =>
         && Keys.Payload(domain, Keys.LocalPart(mail.recipient), m) in cfg.payloads
         && mail.key == Keys.IdempotencyKey(cfg.hash, domain, Keys.LocalPart(mail.recipient), m)
  }

  /** A request goes to the data source's own shpd, with the mail's key when it has one. */
  predicate AuthenticSend(cfg: Config, e: Event)
    requires e.Sent?
  {
    && Authentic(cfg, e.item.mail)
    && e.item.mail.dsId in cfg.home && e.endpoint == cfg.home[e.item.mail.dsId]
    && e.header == (if cfg.messageId(e.item.mail.raw).None? then None else Some(e.item.mail.key))
  }

  predicate SentTo(log: seq<Event>, endpoint: string, key: string) {
    exists i :: 0 <= i < |log| && log[i].Sent? && log[i].endpoint == endpoint && log[i].header == Some(key)
  }

  /** shpd holds the record that `messageId` names for this mail. */
  predicate Recorded(cfg: Config, s: Sys, mail: Mail, messageId: Json.Value) {
    cfg.messageId(mail.raw).Some? ==>
      && mail.dsId in cfg.home
      && (cfg.home[mail.dsId], mail.key) in s.records
      && messageId == Json.Text(s.records[(cfg.home[mail.dsId], mail.key)])
  }

  predicate RecordedIfDelivered(cfg: Config, s: Sys, row: Row) {
    row.state.Delivered? ==> Recorded(cfg, s, row.mail, row.deliveredMessageId)
  }

  predicate HoldsAuthentic(cfg: Config, s: Sys, phase: Phase) {
    phase.Busy? ==>
      && (forall i | 0 <= i < |phase.todo| ::
            && Authentic(cfg, phase.todo[i].mail)
            && phase.todo[i].id < s.table.nextId
            && (phase.todo[i].id in s.table.rows ==> s.table.rows[phase.todo[i].id].mail == phase.todo[i].mail))
      && (phase.todo != [] && phase.sent.Some? && phase.sent.value.Returned? && phase.sent.value.result.Success() ==>
            Recorded(cfg, s, phase.todo[0].mail, phase.sent.value.result.messageId))
  }

  predicate RowsFine(cfg: Config, s: Sys) {
    forall id | id in s.table.rows ::
      Authentic(cfg, s.table.rows[id].mail) && RecordedIfDelivered(cfg, s, s.table.rows[id])
  }

  predicate WorkersFine(cfg: Config, s: Sys) {
    forall w | w in s.workers :: HoldsAuthentic(cfg, s, s.workers[w])
  }

  predicate EventFine(cfg: Config, s: Sys, e: Event) {
    && (e.Sent? ==> AuthenticSend(cfg, e))
    && (e.Pruned? ==> forall id | id in e.rows ::
          Authentic(cfg, e.rows[id].mail) && RecordedIfDelivered(cfg, s, e.rows[id]))
  }

  predicate LogFine(cfg: Config, s: Sys) {
    forall i | 0 <= i < |s.log| :: EventFine(cfg, s, s.log[i])
  }

  predicate RecordsWereSent(s: Sys) {
    forall slot | slot in s.records :: SentTo(s.log, slot.0, slot.1)
  }

  /** The invariant behind the theorem. */
  predicate Fine(cfg: Config, s: Sys) {
    RowsFine(cfg, s) && WorkersFine(cfg, s) && LogFine(cfg, s) && RecordsWereSent(s)
  }

  // ---------------------------------------------------------------- keys

  /** Mails that share a key belong to one data source. */
  lemma SameKeySameDs(cfg: Config, a: Mail, b: Mail)
    requires ValidConfig(cfg) && Authentic(cfg, a) && Authentic(cfg, b)
    requires a.key == b.key && cfg.messageId(a.raw).Some? && cfg.messageId(b.raw).Some?
    ensures a.dsId == b.dsId
  {
    var (da, db) := (Address.DomainOf(a.recipient), Address.DomainOf(b.recipient));
    var (ma, mb) := (cfg.messageId(a.raw).value, cfg.messageId(b.raw).value);
    Address.ParseIgnoresOtherHosts(a.recipient, {da});
    Address.ParseIgnoresOtherHosts(b.recipient, {db});
    assert Keys.NoCollision(cfg.hash, Keys.Payload(da, Keys.LocalPart(a.recipient), ma),
                            Keys.Payload(db, Keys.LocalPart(b.recipient), mb));
    Keys.KeyDeterminesDs(a.recipient, {da}, ma, b.recipient, {db}, mb);
  }

  /** The header is sent exactly for mail with a Message-ID, and it is the mail's key. */
  lemma HeaderOfAuthentic(cfg: Config, mail: Mail)
    requires ValidConfig(cfg) && Authentic(cfg, mail)
    ensures Header(mail.key) == if cfg.messageId(mail.raw).None? then None else Some(mail.key)
  {
    if cfg.messageId(mail.raw).Some? {
      Keys.DigestIsNotNoMid(mail.key);
    }
  }

  /** What the receiver writes is authentic. */
  lemma ReceiverWritesAuthentic(cfg: Config, s: Sys, l: Label)
    requires Enabled(cfg, s, l) && l.DataStep?
    ensures var x := s.sessions[l.sid];
            var rcpt := x.rcpts[|x.done|];
            var p := Address.ParseRecipient(rcpt, l.domains);
            p.Some? ==> Authentic(cfg, MailFor(cfg, x, rcpt, p.value, l.uuid))
  {
    var x := s.sessions[l.sid];
    var rcpt := x.rcpts[|x.done|];
    Address.ParseIgnoresOtherHosts(rcpt, l.domains);
    if cfg.messageId(x.raw).None? {
      assert (Keys.NOMID + l.uuid)[..|Keys.NOMID|] == Keys.NOMID;
    }
  }

  // ---------------------------------------------------------------- steps

  /** A mail stays recorded: shpd's records are never changed or dropped. */
  lemma StaysRecorded(cfg: Config, s: Sys, l: Label, s': Sys, mail: Mail, messageId: Json.Value)
    requires IsStep(cfg, s, l, s') && Recorded(cfg, s, mail, messageId)
    ensures Recorded(cfg, s', mail, messageId)
  {
    LogStep(cfg, s, l, s');
  }

  lemma RowsStayFine(cfg: Config, s: Sys, l: Label, s': Sys, id: nat)
    requires IsStep(cfg, s, l, s') && RowsFine(cfg, s) && WorkersFine(cfg, s)
    requires id in s'.table.rows
    ensures Authentic(cfg, s'.table.rows[id].mail) && RecordedIfDelivered(cfg, s', s'.table.rows[id])
  {
    if id !in s.table.rows {
      RowAdded(cfg, s, l, s', id);
      ReceiverWritesAuthentic(cfg, s, l);
    } else {
      RowKept(cfg, s, l, s', id);
      if s'.table.rows[id].state.Delivered? {
        DeliveredIsRecorded(cfg, s, l, s', id);
      }
    }
  }

  lemma DeliveredIsRecorded(cfg: Config, s: Sys, l: Label, s': Sys, id: nat)
    requires IsStep(cfg, s, l, s') && RowsFine(cfg, s) && WorkersFine(cfg, s)
    requires id in s.table.rows && id in s'.table.rows && s'.table.rows[id].state.Delivered?
    requires s'.table.rows[id].mail == s.table.rows[id].mail
    ensures Recorded(cfg, s', s'.table.rows[id].mail, s'.table.rows[id].deliveredMessageId)
  {
    RowDelivered(cfg, s, l, s', id);
    if l.Settle? && Item(s, l.w).id == id && Verdict(cfg, s, l.w).Deliver? {
      SettledIsRecorded(cfg, s, l);
    } else {
      assert RecordedIfDelivered(cfg, s, s.table.rows[id]);
    }
    hide IsStep, Authentic, HoldsAuthentic;
    if Recorded(cfg, s, s.table.rows[id].mail, s'.table.rows[id].deliveredMessageId) {
      StaysRecorded(cfg, s, l, s', s.table.rows[id].mail, s'.table.rows[id].deliveredMessageId);
    }
  }

  /** The message id a worker is about to write is the one shpd stored. */
  lemma SettledIsRecorded(cfg: Config, s: Sys, l: Label)
    requires Enabled(cfg, s, l) && l.Settle? && WorkersFine(cfg, s) && Verdict(cfg, s, l.w).Deliver?
    ensures Recorded(cfg, s, Item(s, l.w).mail, Verdict(cfg, s, l.w).messageId)
    ensures Item(s, l.w).id in s.table.rows ==> s.table.rows[Item(s, l.w).id].mail == Item(s, l.w).mail
  {
    assert HoldsAuthentic(cfg, s, s.workers[l.w]);
  }

  lemma WorkersStayFine(cfg: Config, s: Sys, l: Label, s': Sys, w: nat)
    requires ValidConfig(cfg) && IsStep(cfg, s, l, s') && RowsFine(cfg, s) && WorkersFine(cfg, s)
    requires w in s'.workers
    ensures HoldsAuthentic(cfg, s', s'.workers[w])
  {
    if s'.workers[w].Busy? {
      HeldWasFine(cfg, s, l, s', w);
      ItemsStayFine(cfg, s, l, s', s'.workers[w].todo);
      AnswersStayFine(cfg, s, l, s', w);
    }
    hide IsStep, Authentic, RowsFine, WorkersFine, ValidConfig, Recorded;
  }

  lemma HeldWasFine(cfg: Config, s: Sys, l: Label, s': Sys, w: nat)
    requires IsStep(cfg, s, l, s') && RowsFine(cfg, s) && WorkersFine(cfg, s)
    requires w in s'.workers && s'.workers[w].Busy?
    ensures forall i | 0 <= i < |s'.workers[w].todo| ::
              var item := s'.workers[w].todo[i];
              && Authentic(cfg, item.mail) && item.id < s.table.nextId
              && (item.id in s.table.rows ==> s.table.rows[item.id].mail == item.mail)
  {
    WorkerStep(cfg, s, l, s', w);
    if l.Dequeue? && l.w == w && s'.workers[w].sent.None? && l.ids != [] {
      FetchedWasFine(cfg, s, l.ids, s.now, cfg.worker.batchSize);
    }
    hide Authentic, IsStep, Recorded, RecordedIfDelivered, RowsFine;
    if w in s.workers {
      assert HoldsAuthentic(cfg, s, s.workers[w]);
    }
    hide WorkersFine;
  }

  lemma FetchedWasFine(cfg: Config, s: Sys, ids: seq<nat>, now: Instant, limit: int)
    requires WellFormed(s.table) && RowsFine(cfg, s) && IsBatch(s.table, now, limit, ids)
    ensures forall i | 0 <= i < |ids| ::
              && ids[i] in s.table.rows && s.table.rows[ids[i]].id == ids[i] < s.table.nextId
              && Authentic(cfg, s.table.rows[ids[i]].mail)
  {
    hide Authentic, RecordedIfDelivered;
    assert forall i | 0 <= i < |ids| :: DueIn(s.table, now, ids[i]);
    hide IsBatch;
  }

  lemma ItemsStayFine(cfg: Config, s: Sys, l: Label, s': Sys, todo: seq<Row>)
    requires IsStep(cfg, s, l, s')
    requires forall i | 0 <= i < |todo| ::
               todo[i].id < s.table.nextId
               && (todo[i].id in s.table.rows ==> s.table.rows[todo[i].id].mail == todo[i].mail)
    ensures forall i | 0 <= i < |todo| ::
              todo[i].id < s'.table.nextId
              && (todo[i].id in s'.table.rows ==> s'.table.rows[todo[i].id].mail == todo[i].mail)
  {
    StepKeepsTable(cfg, s, l);
    forall i | 0 <= i < |todo| && todo[i].id in s'.table.rows
      ensures s'.table.rows[todo[i].id].mail == todo[i].mail
    {
      if todo[i].id in s.table.rows {
        RowKept(cfg, s, l, s', todo[i].id);
      } else {
        RowAdded(cfg, s, l, s', todo[i].id);
      }
    }
  }

  predicate AnswerFine(cfg: Config, s: Sys, phase: Phase) {
    phase.Busy? && phase.todo != [] && phase.sent.Some? && phase.sent.value.Returned?
    && phase.sent.value.result.Success() ==>
      Recorded(cfg, s, phase.todo[0].mail, phase.sent.value.result.messageId)
  }

  lemma AnswersStayFine(cfg: Config, s: Sys, l: Label, s': Sys, w: nat)
    requires ValidConfig(cfg) && IsStep(cfg, s, l, s') && WorkersFine(cfg, s)
    requires w in s'.workers && s'.workers[w].Busy?
    ensures AnswerFine(cfg, s', s'.workers[w])
  {
    WorkerStep(cfg, s, l, s', w);
    if w in s.workers && s'.workers[w] == s.workers[w] {
      assert HoldsAuthentic(cfg, s, s.workers[w]);
      if AnswerFine(cfg, s, s.workers[w]) && s.workers[w].todo != [] && s.workers[w].sent.Some?
         && s.workers[w].sent.value.Returned? && s.workers[w].sent.value.result.Success() {
        StaysRecorded(cfg, s, l, s', s.workers[w].todo[0].mail, s.workers[w].sent.value.result.messageId);
      }
    } else if l.Send? && l.w == w {
      AnswerIsRecorded(cfg, s, l, s');
    }
  }

  /** When shpd confirms, the record it reports is the one it holds. */
  lemma AnswerIsRecorded(cfg: Config, s: Sys, l: Label, s': Sys)
    requires ValidConfig(cfg) && IsStep(cfg, s, l, s') && WorkersFine(cfg, s) && l.Send?
    ensures var r := Client.Receive(l.wire);
            r.Returned? && r.result.Success() ==> Recorded(cfg, s', Item(s, l.w).mail, r.result.messageId)
  {
    ItemIsAuthentic(cfg, s, l.w);
    HeaderOfAuthentic(cfg, Item(s, l.w).mail);
    hide Authentic, HoldsAuthentic, WorkersFine, Client.Receive, Client.Confirmed, Client.Reports, ValidConfig;
    Client.RetryableOutcomes(l.wire);
    var mail := Item(s, l.w).mail;
    if Client.Receive(l.wire).Returned? && Client.Receive(l.wire).result.Success() && cfg.messageId(mail.raw).Some? {
      var slot := (cfg.home[mail.dsId], mail.key);
      assert slot in s'.records && Client.Reports(l.wire.response, Json.Text(s'.records[slot]));
      ReceivedId(l.wire, Json.Text(s'.records[slot]));
    }
  }

  lemma ReceivedId(wire: Client.Wire, id: Json.Value)
    requires wire.Answered? && Client.Confirmed(wire.response) && Client.Reports(wire.response, id)
    ensures Client.Receive(wire).Returned? && Client.Receive(wire).result.messageId == id
  {
    Client.ReportedId(wire.response, id);
    hide Client.Confirmed, Client.Reports, Client.Interpret;
  }

  lemma ItemIsAuthentic(cfg: Config, s: Sys, w: nat)
    requires WorkersFine(cfg, s) && (AtItem(s, w) || HasAnswer(s, w))
    ensures Authentic(cfg, Item(s, w).mail)
  {
  }

  /** The new Sent event of a Send step. */
  lemma SendIsAuthentic(cfg: Config, s: Sys, l: Label, s': Sys)
    requires ValidConfig(cfg) && IsStep(cfg, s, l, s') && WorkersFine(cfg, s) && l.Send?
    ensures |s'.log| == |s.log| + 1 && s'.log[|s.log|].Sent? && AuthenticSend(cfg, s'.log[|s.log|])
  {
    ItemIsAuthentic(cfg, s, l.w);
    hide Authentic, HoldsAuthentic, WorkersFine, Client.Receive;
    HeaderOfAuthentic(cfg, Item(s, l.w).mail);
  }

  lemma LogStaysFine(cfg: Config, s: Sys, l: Label, s': Sys, i: nat)
    requires ValidConfig(cfg) && IsStep(cfg, s, l, s') && Fine(cfg, s)
    requires i < |s'.log|
    ensures EventFine(cfg, s', s'.log[i])
  {
    hide EventFine, IsStep, ValidConfig, RowsFine, WorkersFine, RecordsWereSent;
    LogStep(cfg, s, l, s');
    var e := s'.log[i];
    if i < |s.log| {
      assert EventFine(cfg, s, e);
      EventStaysFine(cfg, s, l, s', e);
    } else {
      NewEventFine(cfg, s, l, s');
    }
  }

  lemma NewEventFine(cfg: Config, s: Sys, l: Label, s': Sys)
    requires ValidConfig(cfg) && IsStep(cfg, s, l, s') && Fine(cfg, s) && |s'.log| > |s.log|
    ensures EventFine(cfg, s', s'.log[|s.log|])
  {
    var e := s'.log[|s.log|];
    if l.Send? {
      SendIsAuthentic(cfg, s, l, s');
    } else {
      hide ValidConfig, Authentic, WorkersFine, RecordsWereSent;
      NewEventRows(cfg, s, l, s');
      if e.Pruned? {
        EventStaysFine(cfg, s, l, s', e);
      }
    }
  }

  lemma NewEventRows(cfg: Config, s: Sys, l: Label, s': Sys)
    requires IsStep(cfg, s, l, s') && |s'.log| > |s.log| && !l.Send?
    ensures var e := s'.log[|s.log|];
            !e.Sent? && (e.Pruned? ==> forall id | id in e.rows :: id in s.table.rows && e.rows[id] == s.table.rows[id])
  {
  }

  lemma EventStaysFine(cfg: Config, s: Sys, l: Label, s': Sys, e: Event)
    requires IsStep(cfg, s, l, s') && EventFine(cfg, s, e)
    ensures EventFine(cfg, s', e)
  {
    if e.Pruned? {
      forall id | id in e.rows && e.rows[id].state.Delivered?
        ensures RecordedIfDelivered(cfg, s', e.rows[id])
      {
        StaysRecorded(cfg, s, l, s', e.rows[id].mail, e.rows[id].deliveredMessageId);
      }
    }
  }

  lemma RecordsStaySent(cfg: Config, s: Sys, l: Label, s': Sys)
    requires IsStep(cfg, s, l, s') && RecordsWereSent(s)
    ensures RecordsWereSent(s')
  {
    LogStep(cfg, s, l, s');
    hide IsStep;
    forall slot | slot in s'.records
      ensures SentTo(s'.log, slot.0, slot.1)
    {
      if slot in s.records {
        SentStays(s.log, s'.log, slot.0, slot.1);
      } else {
        SentLast(s'.log, |s.log|, slot.0, slot.1);
      }
    }
  }

  lemma SentStays(log: seq<Event>, log': seq<Event>, endpoint: string, key: string)
    requires SentTo(log, endpoint, key) && |log| <= |log'| && forall i | 0 <= i < |log| :: log'[i] == log[i]
    ensures SentTo(log', endpoint, key)
  {
    var i :| 0 <= i < |log| && log[i].Sent? && log[i].endpoint == endpoint && log[i].header == Some(key);
    assert log'[i] == log[i];
  }

  lemma SentLast(log: seq<Event>, i: nat, endpoint: string, key: string)
    requires i < |log| && log[i].Sent? && log[i].endpoint == endpoint && log[i].header == Some(key)
    ensures SentTo(log, endpoint, key)
  {
  }

  lemma StepStaysFine(cfg: Config, s: Sys, l: Label, s': Sys)
    requires ValidConfig(cfg) && IsStep(cfg, s, l, s') && Fine(cfg, s)
    ensures Fine(cfg, s')
  {
    forall id | id in s'.table.rows
      ensures Authentic(cfg, s'.table.rows[id].mail) && RecordedIfDelivered(cfg, s', s'.table.rows[id])
    {
      RowsStayFine(cfg, s, l, s', id);
    }
    forall w | w in s'.workers
      ensures HoldsAuthentic(cfg, s', s'.workers[w])
    {
      WorkersStayFine(cfg, s, l, s', w);
    }
    forall i | 0 <= i < |s'.log|
      ensures EventFine(cfg, s', s'.log[i])
    {
      LogStaysFine(cfg, s, l, s', i);
    }
    RecordsStaySent(cfg, s, l, s');
  }

  lemma StartsFine(cfg: Config, s: Sys)
    requires Init(s)
    ensures Fine(cfg, s)
  {
  }

  lemma StaysFineAt(cfg: Config, ss: seq<Sys>, ls: seq<Label>, i: nat)
    requires ValidConfig(cfg) && IsRun(cfg, ss, ls) && i < |ls| && Fine(cfg, ss[i])
    ensures Fine(cfg, ss[i + 1])
  {
    StepOfRun(cfg, ss, ls, i);
    hide Fine, IsStep, ValidConfig;
    StepStaysFine(cfg, ss[i], ls[i], ss[i + 1]);
  }

  lemma {:induction false} RunStaysFine(cfg: Config, ss: seq<Sys>, ls: seq<Label>, i: nat)
    requires ValidConfig(cfg) && IsRun(cfg, ss, ls) && Init(ss[0]) && i <= |ls|
    ensures Fine(cfg, ss[i])
  {
    hide Fine, ValidConfig;
    if i == 0 {
      StartsFine(cfg, ss[0]);
    } else {
      RunStaysFine(cfg, ss, ls, i - 1);
      StaysFineAt(cfg, ss, ls, i - 1);
    }
  }

  // ---------------------------------------------------------------- the theorem

  /** Requests with one key go to one endpoint. */
  lemma OneEndpoint(cfg: Config, s: Sys, a: nat, b: nat)
    requires ValidConfig(cfg) && LogFine(cfg, s)
    requires a < |s.log| && s.log[a].Sent? && b < |s.log| && s.log[b].Sent?
    requires s.log[a].header.Some? && s.log[a].header == s.log[b].header
    ensures s.log[a].endpoint == s.log[b].endpoint
  {
    assert EventFine(cfg, s, s.log[a]) && EventFine(cfg, s, s.log[b]);
    hide Authentic, ValidConfig, LogFine;
    SameKeySameDs(cfg, s.log[a].item.mail, s.log[b].item.mail);
  }

  lemma RecordedOnce(cfg: Config, s: Sys, e1: string, e2: string, key: string)
    requires ValidConfig(cfg) && Fine(cfg, s)
    requires (e1, key) in s.records && (e2, key) in s.records
    ensures e1 == e2
  {
    assert SentTo(s.log, (e1, key).0, (e1, key).1) && SentTo(s.log, (e2, key).0, (e2, key).1);
    hide ValidConfig, LogFine, RowsFine, WorkersFine, RecordsWereSent;
    var a :| 0 <= a < |s.log| && s.log[a].Sent? && s.log[a].endpoint == e1 && s.log[a].header == Some(key);
    var b :| 0 <= b < |s.log| && s.log[b].Sent? && s.log[b].endpoint == e2 && s.log[b].header == Some(key);
    OneEndpoint(cfg, s, a, b);
  }

  /** In every run with any number of workers, crashes, requeues, lost replies, LMTP
      redeliveries and prunes: shpd holds at most one record per key over all its endpoints. */
  lemma AtMostOneRecord(cfg: Config, ss: seq<Sys>, ls: seq<Label>, i: nat, e1: string, e2: string, key: string)
    requires ValidConfig(cfg) && IsRun(cfg, ss, ls) && Init(ss[0]) && i <= |ls|
    requires (e1, key) in ss[i].records && (e2, key) in ss[i].records
    ensures e1 == e2
  {
    RunStaysFine(cfg, ss, ls, i);
    RecordedOnce(cfg, ss[i], e1, e2, key);
  }

  /** The domain, the local part and the Message-ID of a mail. */
  function Identity(cfg: Config, mail: Mail): (string, string, Option<string>) {
    (Address.DomainOf(mail.recipient), Keys.LocalPart(mail.recipient), cfg.messageId(mail.raw))
  }

  /** All requests for one domain, local part and Message-ID carry the same key to the same
      endpoint, even when the row was pruned and the mail enqueued again. */
  lemma OneKeyPerMail(cfg: Config, ss: seq<Sys>, ls: seq<Label>, i: nat, a: nat, b: nat)
    requires ValidConfig(cfg) && IsRun(cfg, ss, ls) && Init(ss[0]) && i <= |ls|
    requires a < |ss[i].log| && ss[i].log[a].Sent? && b < |ss[i].log| && ss[i].log[b].Sent?
    requires Identity(cfg, ss[i].log[a].item.mail) == Identity(cfg, ss[i].log[b].item.mail)
    requires cfg.messageId(ss[i].log[a].item.mail.raw).Some?
    ensures ss[i].log[a].header == ss[i].log[b].header
    ensures ss[i].log[a].header.Some?
    ensures ss[i].log[a].endpoint == ss[i].log[b].endpoint
  {
    RunStaysFine(cfg, ss, ls, i);
    var s := ss[i];
    assert EventFine(cfg, s, s.log[a]) && EventFine(cfg, s, s.log[b]);
    SameKeySameDs(cfg, s.log[a].item.mail, s.log[b].item.mail);
  }

  /** Every row marked delivered, in the table or pruned from it, has its record at shpd and
      carries that record's id. */
  lemma DeliveredHasRecord(cfg: Config, ss: seq<Sys>, ls: seq<Label>, i: nat)
    requires ValidConfig(cfg) && IsRun(cfg, ss, ls) && Init(ss[0]) && i <= |ls|
    ensures forall id | id in ss[i].table.rows && ss[i].table.rows[id].state.Delivered? ::
              Recorded(cfg, ss[i], ss[i].table.rows[id].mail, ss[i].table.rows[id].deliveredMessageId)
    ensures forall j, id | 0 <= j < |ss[i].log| && ss[i].log[j].Pruned? && id in ss[i].log[j].rows
                           && ss[i].log[j].rows[id].state.Delivered? ::
              Recorded(cfg, ss[i], ss[i].log[j].rows[id].mail, ss[i].log[j].rows[id].deliveredMessageId)
  {
    RunStaysFine(cfg, ss, ls, i);
    var s := ss[i];
    forall id | id in s.table.rows && s.table.rows[id].state.Delivered?
      ensures Recorded(cfg, s, s.table.rows[id].mail, s.table.rows[id].deliveredMessageId)
    {
      assert RecordedIfDelivered(cfg, s, s.table.rows[id]);
    }
    forall j, id | 0 <= j < |s.log| && s.log[j].Pruned? && id in s.log[j].rows && s.log[j].rows[id].state.Delivered?
      ensures Recorded(cfg, s, s.log[j].rows[id].mail, s.log[j].rows[id].deliveredMessageId)
    {
      assert EventFine(cfg, s, s.log[j]);
    }
  }
}
