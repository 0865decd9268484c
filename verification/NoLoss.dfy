/** No acknowledged mail is lost, whatever the interleaving. */
module NoLoss {
  import opened Wrappers
  import opened Table
  import opened Delivery
  import opened OneRecord
  import opened Text
  import Address
  import Keys

  /** A mail that counts for a recipient: it has the recipient's key, and `ok` holds of it. */
  predicate HoldsDelivered(rows: map<nat, Row>, ok: Mail -> bool) {
    exists id :: id in rows && rows[id].state.Delivered? && ok(rows[id].mail)
  }

  predicate InTable(t: Table, ok: Mail -> bool) {
    exists id :: id in t.rows && ok(t.rows[id].mail)
  }

  /** Such a row was deleted, and it was delivered when it was. */
  predicate WasPruned(log: seq<Event>, ok: Mail -> bool) {
    exists i :: 0 <= i < |log| && log[i].Pruned? && HoldsDelivered(log[i].rows, ok)
  }

  predicate Covered(s: Sys, ok: Mail -> bool) {
    InTable(s.table, ok) || WasPruned(s.log, ok)
  }

  /** The key of a recipient of a mail with this Message-ID. */
  function RecipientKey(cfg: Config, rcpt: string, messageId: string): string {
    Keys.IdempotencyKey(cfg.hash, Address.DomainOf(rcpt), Keys.LocalPart(rcpt), messageId)
  }

  /** The conventions under which the text of a key can be read in one way only. */
  predicate Conventional(rcpt: string, messageId: string) {
    Keys.SingleAt(rcpt) && '<' !in Keys.LocalPart(rcpt) && StartsWith(messageId, "<")
  }

  function Parsed(rcpt: string): Option<Address.ParsedAddress> {
    Address.ParseRecipient(rcpt, {Address.DomainOf(rcpt)})
  }

  /** The ds_id and the mailbox of a mail are those of its own recipient. */
  predicate ColumnsFit(mail: Mail) {
    && Parsed(mail.recipient).Some?
    && mail.dsId == Parsed(mail.recipient).value.dsId && mail.mailbox == Parsed(mail.recipient).value.mailbox
  }

  /** A stored mail stands for this recipient of this message: without a Message-ID it is that
      very copy; with one it goes to the same domain and data source, and under the conventions
      it has the same Message-ID and the same parsed recipient. */
  predicate StandsFor(cfg: Config, mail: Mail, sender: string, raw: Bytes, rcpt: string) {
    match cfg.messageId(raw)
    case None => mail.sender == sender && mail.raw == raw && mail.recipient == rcpt && ColumnsFit(mail)
    case Some(m) =>
      && cfg.messageId(mail.raw).Some? && ColumnsFit(mail)
      && Address.DomainOf(mail.recipient) == Address.DomainOf(rcpt)
      && Parsed(rcpt).Some? && mail.dsId == Parsed(rcpt).value.dsId
      && (Conventional(rcpt, m) && Conventional(mail.recipient, cfg.messageId(mail.raw).value) ==>
            cfg.messageId(mail.raw) == Some(m) && Parsed(mail.recipient) == Parsed(rcpt))
  }

  /** uuid4 never yields the same value twice. */
  predicate DistinctUuids(ls: seq<Label>) {
    forall i, j | 0 <= i < j < |ls| && ls[i].DataStep? && ls[j].DataStep? :: ls[i].uuid != ls[j].uuid
  }

  /** The assumptions under which equal keys mean equal mail. */
  ghost predicate KeysTell(cfg: Config, ls: seq<Label>) {
    ValidConfig(cfg) && DistinctUuids(ls)
  }

  /** `tell`: keys tell mails apart. */
  predicate Counts(cfg: Config, tell: bool, sender: string, raw: Bytes, rcpt: string, key: string, mail: Mail) {
    mail.key == key && (tell ==> StandsFor(cfg, mail, sender, raw, rcpt))
  }

  /** A recipient is accounted for: it did not parse, or a mail that counts covers it. */
  predicate Accounted(cfg: Config, tell: bool, s: Sys, sender: string, raw: Bytes, rcpt: string, o: Outcome) {
    match o
    case Skipped(domains) => Address.ParseRecipient(rcpt, domains).None?
    case Queued(key) =>
      && Covered(s, (mail: Mail) => Counts(cfg, tell, sender, raw, rcpt, key, mail))
      && match cfg.messageId(raw)
         case Some(m) => key == RecipientKey(cfg, rcpt, m)
         case None => Keys.IsNoMid(key)
  }

  predicate AllAccounted(cfg: Config, tell: bool, s: Sys, sender: string, raw: Bytes, rcpts: seq<string>,
                         done: seq<Outcome>) {
    |done| <= |rcpts| && forall k | 0 <= k < |done| :: Accounted(cfg, tell, s, sender, raw, rcpts[k], done[k])
  }

  /** The invariant: every recipient handled so far, in a session or behind an
      acknowledgement, is accounted for; an acknowledgement covers them all. */
  predicate NothingLost(cfg: Config, tell: bool, s: Sys) {
    && (forall sid | sid in s.sessions ::
          var x := s.sessions[sid]; AllAccounted(cfg, tell, s, x.sender, x.raw, x.rcpts, x.done))
    && (forall i | 0 <= i < |s.log| && s.log[i].Acked? ::
          && |s.log[i].done| == |s.log[i].rcpts|
          && AllAccounted(cfg, tell, s, s.log[i].sender, s.log[i].raw, s.log[i].rcpts, s.log[i].done))
  }

  /** No statement but the DELETE loses a row, and the DELETE only takes delivered ones. */
  lemma CoveredStays(cfg: Config, s: Sys, l: Label, s': Sys, ok: Mail -> bool)
    requires IsStep(cfg, s, l, s') && Covered(s, ok)
    ensures Covered(s', ok)
  {
    LogGrows(cfg, s, l, s');
    if WasPruned(s.log, ok) {
      var i :| 0 <= i < |s.log| && s.log[i].Pruned? && HoldsDelivered(s.log[i].rows, ok);
      assert s'.log[i] == s.log[i];
    } else {
      var id :| id in s.table.rows && ok(s.table.rows[id].mail);
      if l.PruneDelivered? && Prunable(s.table.rows[id], l.cutoff) {
        var e := s'.log[|s.log|];
        assert id in e.rows && e.rows[id] == s.table.rows[id];
      } else {
        RowStays(cfg, s, l, s', id);
      }
    }
  }

  lemma LogGrows(cfg: Config, s: Sys, l: Label, s': Sys)
    requires IsStep(cfg, s, l, s')
    ensures s.log <= s'.log && |s'.log| <= |s.log| + 1
  {
  }

  /** A row that is not pruned keeps its mail. */
  lemma RowStays(cfg: Config, s: Sys, l: Label, s': Sys, id: nat)
    requires IsStep(cfg, s, l, s') && id in s.table.rows
    requires l.PruneDelivered? ==> !Prunable(s.table.rows[id], l.cutoff)
    ensures id in s'.table.rows && s'.table.rows[id].mail == s.table.rows[id].mail
  {
    RowRemains(cfg, s, l, s', id);
    RowKept(cfg, s, l, s', id);
  }

  lemma AccountedStays(cfg: Config, tell: bool, s: Sys, l: Label, s': Sys, sender: string, raw: Bytes, rcpts: seq<string>,
                       done: seq<Outcome>)
    requires IsStep(cfg, s, l, s') && AllAccounted(cfg, tell, s, sender, raw, rcpts, done)
    ensures AllAccounted(cfg, tell, s', sender, raw, rcpts, done)
  {
    hide IsStep, Counts, Covered;
    forall k | 0 <= k < |done|
      ensures Accounted(cfg, tell, s', sender, raw, rcpts[k], done[k])
    {
      assert Accounted(cfg, tell, s, sender, raw, rcpts[k], done[k]);
      if done[k].Queued? {
        CoveredStays(cfg, s, l, s', (mail: Mail) => Counts(cfg, tell, sender, raw, rcpts[k], done[k].key, mail));
      }
    }
  }

  // ---------------------------------------------------------------- what a key tells

  /** Every key without a Message-ID was drawn by an earlier step. */
  lemma {:induction false} DrawnBefore(cfg: Config, ss: seq<Sys>, ls: seq<Label>, i: nat, id: nat)
    requires IsRun(cfg, ss, ls) && Init(ss[0]) && i <= |ls|
    requires id in ss[i].table.rows && cfg.messageId(ss[i].table.rows[id].mail.raw).None?
    ensures exists j :: DrawnAt(ls, j, i, ss[i].table.rows[id].mail.key)
  {
    if i > 0 {
      StepOfRun(cfg, ss, ls, i - 1);
      if id in ss[i - 1].table.rows {
        RowKept(cfg, ss[i - 1], ls[i - 1], ss[i], id);
        hide IsStep, IsRun, Init, DrawnAt;
        DrawnBefore(cfg, ss, ls, i - 1, id);
        var j :| DrawnAt(ls, j, i - 1, ss[i - 1].table.rows[id].mail.key);
        DrawnLater(ls, j, i, ss[i].table.rows[id].mail.key);
      } else {
        DrawnNow(cfg, ss[i - 1], ls[i - 1], ss[i], id);
        hide IsStep, IsRun, Init;
        assert DrawnAt(ls, i - 1, i, ss[i].table.rows[id].mail.key);
      }
    } else {
      hide IsRun, IsStep, DrawnAt;
    }
  }

  lemma DrawnLater(ls: seq<Label>, j: int, i: nat, key: string)
    requires 0 < i <= |ls| && DrawnAt(ls, j, i - 1, key)
    ensures DrawnAt(ls, j, i, key)
  {
  }

  /** A new row without a Message-ID has the key drawn by the step that adds it. */
  lemma DrawnNow(cfg: Config, s: Sys, l: Label, s': Sys, id: nat)
    requires IsStep(cfg, s, l, s') && id in s'.table.rows && id !in s.table.rows
    requires cfg.messageId(s'.table.rows[id].mail.raw).None?
    ensures l.DataStep? && s'.table.rows[id].mail.key == Keys.NOMID + l.uuid
  {
    RowAdded(cfg, s, l, s', id);
    hide Address.ParseRecipient, Next, Keys.IdempotencyKey;
  }

  predicate DrawnAt(ls: seq<Label>, j: int, i: nat, key: string)
    requires i <= |ls|
  {
    0 <= j < i && ls[j].DataStep? && key == Keys.NOMID + ls[j].uuid
  }

  /** Where keys tell mails apart, a row that has the key of a recipient stands for it. */
  lemma SameKeyStandsFor(cfg: Config, ss: seq<Sys>, ls: seq<Label>, i: nat, id: nat)
    requires KeysTell(cfg, ls) && IsRun(cfg, ss, ls) && Init(ss[0]) && i < |ls| && ls[i].DataStep?
    requires Enabled(cfg, ss[i], ls[i])
    requires var x := ss[i].sessions[ls[i].sid];
             var rcpt := x.rcpts[|x.done|];
             var p := Address.ParseRecipient(rcpt, ls[i].domains);
             && p.Some? && id in ss[i].table.rows
             && ss[i].table.rows[id].mail.key == KeyFor(cfg, p.value, rcpt, x.raw, ls[i].uuid)
    ensures var x := ss[i].sessions[ls[i].sid];
            StandsFor(cfg, ss[i].table.rows[id].mail, x.sender, x.raw, x.rcpts[|x.done|])
  {
    var s, l := ss[i], ls[i];
    var x, mail := s.sessions[l.sid], s.table.rows[id].mail;
    var rcpt := x.rcpts[|x.done|];
    RunStaysFine(cfg, ss, ls, i);
    assert Authentic(cfg, mail);
    ReceiverWritesAuthentic(cfg, s, l);
    var p := Address.ParseRecipient(rcpt, l.domains).value;
    Address.ParseIgnoresOtherHosts(rcpt, l.domains);
    var mine := MailFor(cfg, x, rcpt, p, l.uuid);
    if cfg.messageId(x.raw).Some? {
      hide IsRun, Fine, Enabled, KeyFor;
      SameKeySameText(cfg, mine, mail);
    } else {
      NotDrawnAgain(cfg, ss, ls, i, id);
    }
  }

  /** A fresh random id is not in the table. */
  lemma NotDrawnAgain(cfg: Config, ss: seq<Sys>, ls: seq<Label>, i: nat, id: nat)
    requires KeysTell(cfg, ls) && IsRun(cfg, ss, ls) && Init(ss[0]) && i < |ls| && ls[i].DataStep?
    requires id in ss[i].table.rows && Authentic(cfg, ss[i].table.rows[id].mail)
    ensures ss[i].table.rows[id].mail.key != Keys.NOMID + ls[i].uuid
  {
    var mail := ss[i].table.rows[id].mail;
    if cfg.messageId(mail.raw).Some? {
      Keys.DigestIsNotNoMid(mail.key);
      assert (Keys.NOMID + ls[i].uuid)[..|Keys.NOMID|] == Keys.NOMID;
    } else {
      DrawnBefore(cfg, ss, ls, i, id);
      var j :| DrawnAt(ls, j, i, mail.key);
      assert (Keys.NOMID + ls[i].uuid)[|Keys.NOMID|..] == ls[i].uuid;
      assert (Keys.NOMID + ls[j].uuid)[|Keys.NOMID|..] == ls[j].uuid;
    }
  }

  lemma HaveBoth(cfg: Config, mine: Mail, mail: Mail)
    requires ValidConfig(cfg) && Authentic(cfg, mine) && Authentic(cfg, mail) && mail.key == mine.key
    requires cfg.messageId(mine.raw).Some?
    ensures cfg.messageId(mail.raw).Some?
  {
    hide Address.ParseRecipient, Keys.Payload, Keys.LocalPart, Keys.NoCollision, Address.DomainOf;
    if cfg.messageId(mail.raw).None? {
      Keys.DigestIsNotNoMid(mine.key);
      assert false;
    }
  }

  /** Authentic mails with Message-IDs that share a key. */
  lemma SameKeySameText(cfg: Config, mine: Mail, mail: Mail)
    requires ValidConfig(cfg) && Authentic(cfg, mine) && Authentic(cfg, mail) && mail.key == mine.key
    requires cfg.messageId(mine.raw).Some?
    ensures StandsFor(cfg, mail, mine.sender, mine.raw, mine.recipient)
  {
    hide Address.ParseRecipient, Keys.LocalPart, Keys.Payload, Address.DomainOf, Keys.HexDigest;
    var (d, d2) := (Address.DomainOf(mine.recipient), Address.DomainOf(mail.recipient));
    var m := cfg.messageId(mine.raw).value;
    HaveBoth(cfg, mine, mail);
    var m2 := cfg.messageId(mail.raw).value;
    Address.ParseIgnoresOtherHosts(mine.recipient, {d});
    Address.ParseIgnoresOtherHosts(mail.recipient, {d2});
    assert Keys.NoCollision(cfg.hash, Keys.Payload(d, Keys.LocalPart(mine.recipient), m),
                            Keys.Payload(d2, Keys.LocalPart(mail.recipient), m2));
    hide Keys.NoCollision, ValidConfig;
    Keys.KeyDeterminesDs(mine.recipient, {d}, m, mail.recipient, {d2}, m2);
    if Conventional(mine.recipient, m) && Conventional(mail.recipient, m2) {
      Keys.SameKeySameMail(cfg.hash, mine.recipient, {d}, m, mail.recipient, {d2}, m2);
    }
  }

  // ---------------------------------------------------------------- steps

  /** Enqueueing leaves a row that counts: the new one, or the one already there. */
  lemma EnqueueAccounts(cfg: Config, tell: bool, ss: seq<Sys>, ls: seq<Label>, i: nat)
    requires IsRun(cfg, ss, ls) && Init(ss[0]) && (tell ==> KeysTell(cfg, ls)) && i < |ls| && ls[i].DataStep?
    requires IsStep(cfg, ss[i], ls[i], ss[i + 1])
    ensures var x := ss[i].sessions[ls[i].sid];
            var done := ss[i + 1].sessions[ls[i].sid].done;
            Accounted(cfg, tell, ss[i + 1], x.sender, x.raw, x.rcpts[|x.done|], done[|x.done|])
  {
    var s, l, s' := ss[i], ls[i], ss[i + 1];
    var x := s.sessions[l.sid];
    var rcpt := x.rcpts[|x.done|];
    Address.ParseIgnoresOtherHosts(rcpt, l.domains);
    var p := Address.ParseRecipient(rcpt, l.domains);
    if p.Some? {
      var mine := MailFor(cfg, x, rcpt, p.value, l.uuid);
      var id := KeyRow(cfg, s, l, s');
      var mail := s'.table.rows[id].mail;
      if id in s.table.rows {
        RowKept(cfg, s, l, s', id);
        if tell {
          SameKeyStandsFor(cfg, ss, ls, i, id);
        }
      } else {
        RowAdded(cfg, s, l, s', id);
        if tell {
          ReceiverWritesAuthentic(cfg, s, l);
          OwnMail(cfg, mine, x.sender, x.raw, rcpt);
        }
      }
      assert Counts(cfg, tell, x.sender, x.raw, rcpt, mine.key, mail);
    }
  }

  /** A recipient's own mail stands for it. */
  lemma OwnMail(cfg: Config, mail: Mail, sender: string, raw: Bytes, rcpt: string)
    requires ValidConfig(cfg) && Authentic(cfg, mail) && mail.sender == sender && mail.raw == raw && mail.recipient == rcpt
    ensures StandsFor(cfg, mail, sender, raw, rcpt)
  {
  }

  /** The row that has the key after the INSERT. */
  lemma KeyRow(cfg: Config, s: Sys, l: Label, s': Sys) returns (id: nat)
    requires IsStep(cfg, s, l, s') && l.DataStep?
    requires var x := s.sessions[l.sid]; Address.ParseRecipient(x.rcpts[|x.done|], l.domains).Some?
    ensures var x := s.sessions[l.sid];
            var rcpt := x.rcpts[|x.done|];
            var key := KeyFor(cfg, Address.ParseRecipient(rcpt, l.domains).value, rcpt, x.raw, l.uuid);
            && id in s'.table.rows && s'.table.rows[id].mail.key == key
            && l.sid in s'.sessions && |s'.sessions[l.sid].done| > |x.done|
            && s'.sessions[l.sid].done[|x.done|] == Queued(key)
  {
    var x := s.sessions[l.sid];
    var rcpt := x.rcpts[|x.done|];
    var key := KeyFor(cfg, Address.ParseRecipient(rcpt, l.domains).value, rcpt, x.raw, l.uuid);
    hide Address.ParseRecipient, KeyFor;
    if HasKey(s.table, key) {
      id :| id in s.table.rows && s.table.rows[id].mail.key == key;
    } else {
      id := s.table.nextId;
    }
  }

  /** How a session may change in one step. */
  lemma SessionStep(cfg: Config, s: Sys, l: Label, s': Sys, sid: nat)
    requires IsStep(cfg, s, l, s') && sid in s'.sessions
    ensures sid !in s.sessions ==> s'.sessions[sid].done == []
    ensures sid in s.sessions && s'.sessions[sid] != s.sessions[sid] ==>
              && l.DataStep? && l.sid == sid
              && var (x, y) := (s.sessions[sid], s'.sessions[sid]);
              y == x.(done := y.done) && |x.done| < |x.rcpts| && |y.done| == |x.done| + 1 && y.done[..|x.done|] == x.done
  {
  }

  lemma SessionsStayAccounted(cfg: Config, tell: bool, ss: seq<Sys>, ls: seq<Label>, i: nat, sid: nat)
    requires IsRun(cfg, ss, ls) && Init(ss[0]) && (tell ==> KeysTell(cfg, ls)) && i < |ls|
    requires NothingLost(cfg, tell, ss[i]) && sid in ss[i + 1].sessions
    ensures var y := ss[i + 1].sessions[sid]; AllAccounted(cfg, tell, ss[i + 1], y.sender, y.raw, y.rcpts, y.done)
  {
    StepOfRun(cfg, ss, ls, i);
    var s, l, s' := ss[i], ls[i], ss[i + 1];
    SessionStep(cfg, s, l, s', sid);
    hide IsRun, IsStep, KeysTell, AllAccounted, Accounted;
    if sid in s.sessions {
      var x, y := s.sessions[sid], s'.sessions[sid];
      AccountedStays(cfg, tell, s, l, s', x.sender, x.raw, x.rcpts, x.done);
      if y != x {
        EnqueueAccounts(cfg, tell, ss, ls, i);
        OneMoreAccounted(cfg, tell, s', x.sender, x.raw, x.rcpts, x.done, y.done);
      }
    } else {
      NoneYet(cfg, tell, s', s'.sessions[sid]);
    }
  }

  lemma OneMoreAccounted(cfg: Config, tell: bool, s: Sys, sender: string, raw: Bytes, rcpts: seq<string>, done: seq<Outcome>,
                         done': seq<Outcome>)
    requires AllAccounted(cfg, tell, s, sender, raw, rcpts, done)
    requires |done'| == |done| + 1 <= |rcpts| && done'[..|done|] == done
    requires Accounted(cfg, tell, s, sender, raw, rcpts[|done|], done'[|done|])
    ensures AllAccounted(cfg, tell, s, sender, raw, rcpts, done')
  {
    hide Accounted;
    assert forall k | 0 <= k < |done| :: done'[k] == done'[..|done|][k];
  }

  lemma NoneYet(cfg: Config, tell: bool, s: Sys, x: Session)
    requires x.done == []
    ensures AllAccounted(cfg, tell, s, x.sender, x.raw, x.rcpts, x.done)
  {
  }

  lemma AckedStayAccounted(cfg: Config, tell: bool, s: Sys, l: Label, s': Sys, i: nat)
    requires IsStep(cfg, s, l, s') && NothingLost(cfg, tell, s) && i < |s'.log| && s'.log[i].Acked?
    ensures |s'.log[i].done| == |s'.log[i].rcpts|
    ensures AllAccounted(cfg, tell, s', s'.log[i].sender, s'.log[i].raw, s'.log[i].rcpts, s'.log[i].done)
  {
    LogGrows(cfg, s, l, s');
    var e := s'.log[i];
    if i < |s.log| {
      assert e == s.log[i];
    } else {
      assert l.DataAck?;
    }
    hide IsStep, AllAccounted;
    AccountedStays(cfg, tell, s, l, s', e.sender, e.raw, e.rcpts, e.done);
  }

  lemma StepLosesNothing(cfg: Config, tell: bool, ss: seq<Sys>, ls: seq<Label>, i: nat)
    requires IsRun(cfg, ss, ls) && Init(ss[0]) && (tell ==> KeysTell(cfg, ls)) && i < |ls|
    requires NothingLost(cfg, tell, ss[i])
    ensures NothingLost(cfg, tell, ss[i + 1])
  {
    StepOfRun(cfg, ss, ls, i);
    var s, l, s' := ss[i], ls[i], ss[i + 1];
    hide IsRun, IsStep, KeysTell, AllAccounted;
    forall sid | sid in s'.sessions
      ensures var x := s'.sessions[sid]; AllAccounted(cfg, tell, s', x.sender, x.raw, x.rcpts, x.done)
    {
      SessionsStayAccounted(cfg, tell, ss, ls, i, sid);
    }
    forall k | 0 <= k < |s'.log| && s'.log[k].Acked?
      ensures |s'.log[k].done| == |s'.log[k].rcpts|
      ensures AllAccounted(cfg, tell, s', s'.log[k].sender, s'.log[k].raw, s'.log[k].rcpts, s'.log[k].done)
    {
      AckedStayAccounted(cfg, tell, s, l, s', k);
    }
  }

  lemma StartsWithNothing(cfg: Config, tell: bool, s: Sys)
    requires Init(s)
    ensures NothingLost(cfg, tell, s)
  {
  }

  lemma {:induction false} NothingLostAt(cfg: Config, tell: bool, ss: seq<Sys>, ls: seq<Label>, i: nat)
    requires IsRun(cfg, ss, ls) && Init(ss[0]) && (tell ==> KeysTell(cfg, ls)) && i <= |ls|
    ensures NothingLost(cfg, tell, ss[i])
  {
    assert |ss| == |ls| + 1;
    hide NothingLost, IsRun, KeysTell;
    if i == 0 {
      StartsWithNothing(cfg, tell, ss[0]);
    } else {
      NothingLostAt(cfg, tell, ss, ls, i - 1);
      StepLosesNothing(cfg, tell, ss, ls, i - 1);
    }
  }

  /** In every run, at every point: each recipient of a message that was answered 250 either
      did not parse when DATA was handled, or has a row under its key that is in the table
      or was deleted after it had been delivered. */
  lemma NoAcknowledgedMailLost(cfg: Config, ss: seq<Sys>, ls: seq<Label>, i: nat)
    requires IsRun(cfg, ss, ls) && Init(ss[0]) && i <= |ls|
    ensures NothingLost(cfg, false, ss[i])
  {
    NothingLostAt(cfg, false, ss, ls, i);
  }

  /** And where hashes do not collide and random ids do not repeat, that row stands for this
      recipient of this message: it holds this very copy, or, where there is a Message-ID, a
      mail for the same domain and data source, with the same Message-ID and the same parsed
      recipient if both mails follow the RFCs. */
  lemma AcknowledgedMailIsHeld(cfg: Config, ss: seq<Sys>, ls: seq<Label>, i: nat)
    requires KeysTell(cfg, ls) && IsRun(cfg, ss, ls) && Init(ss[0]) && i <= |ls|
    ensures NothingLost(cfg, true, ss[i])
  {
    NothingLostAt(cfg, true, ss, ls, i);
  }
}
