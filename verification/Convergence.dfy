/** Redelivering a message over LMTP until it is acknowledged leaves what one delivery leaves. */
module Convergence {
  import opened Wrappers
  import opened Table
  import Timestamps
  import opened WorkerRules
  import opened Delivery
  import Address
  import Keys

  datatype Message = Message(sender: string, raw: Bytes, rcpts: seq<string>)

  /** The mails in the table by key: rows without ids, timestamps and worker progress. */
  ghost function Contents(t: Table): map<string, Mail>
    requires WellFormed(t)
  {
    map id | id in t.rows :: t.rows[id].mail.key := t.rows[id].mail
  }

  /** The mail `handle_DATA` makes for recipient `k` under these hosts, if it parses. */
  function MailAt(cfg: Config, msg: Message, domains: set<string>, k: nat): Option<Mail>
    requires k < |msg.rcpts|
  {
    match Address.ParseRecipient(msg.rcpts[k], domains)
    case None => None
    case Some(p) => Some(MailFor(cfg, Session(msg.sender, msg.raw, msg.rcpts, []), msg.rcpts[k], p, ""))
  }

  function AddMail(c: map<string, Mail>, mail: Option<Mail>): map<string, Mail> {
    if mail.Some? && mail.value.key !in c then c[mail.value.key := mail.value] else c
  }

  /** What the first `n` recipients of one uninterrupted call add to `c`. */
  function Plan(cfg: Config, c: map<string, Mail>, msg: Message, domains: set<string>, n: nat): map<string, Mail>
    requires n <= |msg.rcpts|
  {
    if n == 0 then c else AddMail(Plan(cfg, c, msg, domains, n - 1), MailAt(cfg, msg, domains, n - 1))
  }

  /** The plan keeps what was there, adds one mail per new key, and covers every recipient. */
  lemma {:induction false} PlanCovers(cfg: Config, c: map<string, Mail>, msg: Message, domains: set<string>, n: nat)
    requires n <= |msg.rcpts|
    ensures var r := Plan(cfg, c, msg, domains, n);
            && (forall key | key in c :: key in r && r[key] == c[key])
            && (forall k: nat | k < n && MailAt(cfg, msg, domains, k).Some? :: MailAt(cfg, msg, domains, k).value.key in r)
            && (forall key | key in r && key !in c ::
                  exists k: nat :: k < n && MailAt(cfg, msg, domains, k) == Some(r[key]) && r[key].key == key)
  {
    hide MailAt;
    if n > 0 {
      PlanCovers(cfg, c, msg, domains, n - 1);
      var before, r := Plan(cfg, c, msg, domains, n - 1), Plan(cfg, c, msg, domains, n);
      forall key | key in r && key !in c
        ensures exists k: nat :: k < n && MailAt(cfg, msg, domains, k) == Some(r[key]) && r[key].key == key
      {
        if key in before {
          var k: nat :| k < n - 1 && MailAt(cfg, msg, domains, k) == Some(before[key]) && before[key].key == key;
          assert r[key] == before[key];
        } else {
          assert MailAt(cfg, msg, domains, n - 1) == Some(r[key]);
        }
      }
    }
  }

  /** A recipient already handled adds nothing the second time. */
  lemma RepeatAddsNothing(cfg: Config, c: map<string, Mail>, msg: Message, domains: set<string>, n: nat, k: nat)
    requires k < n <= |msg.rcpts|
    ensures AddMail(Plan(cfg, c, msg, domains, n), MailAt(cfg, msg, domains, k)) == Plan(cfg, c, msg, domains, n)
  {
    PlanCovers(cfg, c, msg, domains, n);
    hide MailAt;
  }

  /** Handling recipient `k` after the first `n`: nothing new, or the next step of the plan. */
  lemma PlanStep(cfg: Config, c: map<string, Mail>, msg: Message, domains: set<string>, n: nat, k: nat)
    requires k <= n <= |msg.rcpts| && k < |msg.rcpts|
    ensures AddMail(Plan(cfg, c, msg, domains, n), MailAt(cfg, msg, domains, k)) ==
            Plan(cfg, c, msg, domains, if k == n then n + 1 else n)
  {
    hide MailAt, AddMail;
    if k < n {
      RepeatAddsNothing(cfg, c, msg, domains, n, k);
    }
  }

  /** The INSERT adds its mail unless the key is there. */
  lemma InsertAdds(t: Table, mail: Mail, now: Timestamps.Instant)
    requires WellFormed(t)
    ensures Contents(Insert(t, mail, now)) == AddMail(Contents(t), Some(mail))
  {
    HasKeyIsIn(t, mail.key);
    if !HasKey(t, mail.key) {
      forall key
        ensures key in Contents(Insert(t, mail, now)) <==> key in AddMail(Contents(t), Some(mail))
        ensures key in Contents(Insert(t, mail, now)) ==>
                  Contents(Insert(t, mail, now))[key] == AddMail(Contents(t), Some(mail))[key]
      {
        InsertAddsAt(t, mail, now, key);
      }
      hide Contents, Insert, HasKey;
      assert Contents(Insert(t, mail, now)) == AddMail(Contents(t), Some(mail));
    }
  }

  lemma HasKeyIsIn(t: Table, key: string)
    requires WellFormed(t)
    ensures HasKey(t, key) <==> key in Contents(t)
  {
  }

  /** A key of the contents, and the mail under it, come from a row. */
  lemma ContentsAt(t: Table, key: string, mail: Mail)
    requires WellFormed(t)
    ensures key in Contents(t) && Contents(t)[key] == mail <==> mail.key == key && exists id :: IsRowOf(t, id, mail)
  {
    if key in Contents(t) && Contents(t)[key] == mail {
      var id :| id in t.rows && t.rows[id].mail.key == key;
      assert IsRowOf(t, id, mail);
    }
    if mail.key == key && exists id :: IsRowOf(t, id, mail) {
      var id :| IsRowOf(t, id, mail);
      assert key in Contents(t);
    }
  }

  predicate IsRowOf(t: Table, id: nat, mail: Mail) {
    id in t.rows && t.rows[id].mail == mail
  }

  lemma InsertAddsAt(t: Table, mail: Mail, now: Timestamps.Instant, key: string)
    requires WellFormed(t) && !HasKey(t, mail.key)
    ensures var (c, r) := (AddMail(Contents(t), Some(mail)), Contents(Insert(t, mail, now)));
            (key in r <==> key in c) && (key in r ==> r[key] == c[key])
  {
    var u := Insert(t, mail, now);
    HasKeyIsIn(t, mail.key);
    if key == mail.key {
      InsertedRow(t, mail, now);
      hide Contents, Insert;
      ContentsAt(u, key, mail);
    } else {
      OldRows(t, mail, now);
      hide Insert, HasKey;
      SameAt(t, u, key);
    }
  }

  lemma InsertedRow(t: Table, mail: Mail, now: Timestamps.Instant)
    requires WellFormed(t) && !HasKey(t, mail.key)
    ensures IsRowOf(Insert(t, mail, now), t.nextId, mail)
  {
  }

  lemma OldRows(t: Table, mail: Mail, now: Timestamps.Instant)
    requires WellFormed(t) && !HasKey(t, mail.key)
    ensures forall id :: id in t.rows ==>
              id in Insert(t, mail, now).rows && Insert(t, mail, now).rows[id].mail == t.rows[id].mail
    ensures forall id :: id in Insert(t, mail, now).rows && id !in t.rows ==> Insert(t, mail, now).rows[id].mail == mail
  {
  }

  predicate HoldsAll(t: Table, u: Table, key: string) {
    forall id :: id in t.rows && t.rows[id].mail.key == key ==> id in u.rows && u.rows[id].mail == t.rows[id].mail
  }

  lemma FoundAt(t: Table, u: Table, key: string)
    requires WellFormed(t) && WellFormed(u) && HoldsAll(t, u, key)
    ensures key in Contents(t) ==> key in Contents(u) && Contents(u)[key] == Contents(t)[key]
  {
    if key in Contents(t) {
      var mail := Contents(t)[key];
      ContentsAt(t, key, mail);
      hide Contents, WellFormed;
      var id :| IsRowOf(t, id, mail);
      assert IsRowOf(u, id, mail);
      ContentsAt(u, key, mail);
    }
  }

  /** Tables that hold the same mails under a key. */
  lemma SameAt(t: Table, u: Table, key: string)
    requires WellFormed(t) && WellFormed(u) && HoldsAll(t, u, key) && HoldsAll(u, t, key)
    ensures key in Contents(u) <==> key in Contents(t)
    ensures key in Contents(t) ==> Contents(u)[key] == Contents(t)[key]
  {
    hide Contents, WellFormed, HoldsAll;
    FoundAt(t, u, key);
    FoundAt(u, t, key);
  }

  // ---------------------------------------------------------------- one message among others

  function Only(c: map<string, Mail>, keys: set<string>): map<string, Mail> {
    map key | key in c && key in keys :: c[key]
  }

  /** The keys of the message's recipients. */
  function KeysOf(cfg: Config, msg: Message, domains: set<string>): set<string> {
    set k: nat | k < |msg.rcpts| && MailAt(cfg, msg, domains, k).Some? :: MailAt(cfg, msg, domains, k).value.key
  }

  /** What the table holds of the message. */
  ghost function Part(cfg: Config, t: Table, msg: Message, domains: set<string>): map<string, Mail>
    requires WellFormed(t)
  {
    Only(Contents(t), KeysOf(cfg, msg, domains))
  }

  /** A session that delivers this message. */
  predicate Ours(x: Session, msg: Message) {
    x.sender == msg.sender && x.raw == msg.raw && x.rcpts == msg.rcpts
  }

  /** Under the message the hosts stay. Other sessions, workers and prunes do as they like, as
      long as they neither store nor delete a mail under one of its keys. */
  predicate Redelivers(cfg: Config, s: Sys, l: Label, msg: Message, domains: set<string>) {
    && (l.DataStep? && Enabled(cfg, s, l) ==>
          if Ours(s.sessions[l.sid], msg) then l.domains == domains
          else
            var mail := MailOf(cfg, s, l);
            mail.Some? ==> mail.value.key !in KeysOf(cfg, msg, domains))
    && (l.PruneDelivered? ==>
          forall id | id in s.table.rows && Prunable(s.table.rows[id], l.cutoff) ::
            s.table.rows[id].mail.key !in KeysOf(cfg, msg, domains))
  }

  /** No session of ours is further than `n` recipients. */
  predicate NoneFurther(s: Sys, msg: Message, n: nat) {
    forall sid | sid in s.sessions && Ours(s.sessions[sid], msg) :: |s.sessions[sid].done| <= n
  }

  /** `n` recipients have been handled by some call, and no call is further than that. */
  ghost predicate Planned(cfg: Config, s: Sys, c: map<string, Mail>, msg: Message, domains: set<string>, n: nat) {
    && WellFormed(s.table) && n <= |msg.rcpts| && NoneFurther(s, msg, n)
    && Part(cfg, s.table, msg, domains) == Plan(cfg, c, msg, domains, n)
  }

  // ---------------------------------------------------------------- steps

  /** Every other step leaves the part of the table that holds the message. */
  lemma PartKept(cfg: Config, s: Sys, l: Label, s': Sys, msg: Message, domains: set<string>)
    requires IsStep(cfg, s, l, s') && !l.DataStep? && Redelivers(cfg, s, l, msg, domains) && WellFormed(s'.table)
    ensures Part(cfg, s'.table, msg, domains) == Part(cfg, s.table, msg, domains)
  {
    forall key | key in KeysOf(cfg, msg, domains)
      ensures key in Contents(s'.table) <==> key in Contents(s.table)
      ensures key in Contents(s.table) ==> Contents(s'.table)[key] == Contents(s.table)[key]
    {
      hide KeysOf, MailAt, Contents;
      RowsKept(cfg, s, l, s', msg, domains, key);
      hide IsStep, Redelivers;
      SameAt(s.table, s'.table, key);
    }
    hide *;
    SameParts(Contents(s.table), Contents(s'.table), KeysOf(cfg, msg, domains));
    PartIs(cfg, s.table, msg, domains);
    PartIs(cfg, s'.table, msg, domains);
  }

  lemma PartIs(cfg: Config, t: Table, msg: Message, domains: set<string>)
    requires WellFormed(t)
    ensures Part(cfg, t, msg, domains) == Only(Contents(t), KeysOf(cfg, msg, domains))
  {
  }

  lemma SameParts(c: map<string, Mail>, d: map<string, Mail>, keys: set<string>)
    requires forall key | key in keys :: (key in d <==> key in c) && (key in c ==> d[key] == c[key])
    ensures Only(d, keys) == Only(c, keys)
  {
  }

  lemma RowsKept(cfg: Config, s: Sys, l: Label, s': Sys, msg: Message, domains: set<string>, key: string)
    requires IsStep(cfg, s, l, s') && !l.DataStep? && Redelivers(cfg, s, l, msg, domains)
    requires key in KeysOf(cfg, msg, domains)
    ensures HoldsAll(s.table, s'.table, key) && HoldsAll(s'.table, s.table, key)
  {
    hide KeysOf;
    forall id
      ensures id in s.table.rows && s.table.rows[id].mail.key == key ==>
                id in s'.table.rows && s'.table.rows[id].mail == s.table.rows[id].mail
      ensures id in s'.table.rows && s'.table.rows[id].mail.key == key ==>
                id in s.table.rows && s.table.rows[id].mail == s'.table.rows[id].mail
    {
      hide IsStep;
      if id in s.table.rows {
        RowRemains(cfg, s, l, s', id);
        if id in s'.table.rows {
          RowKept(cfg, s, l, s', id);
        }
      } else if id in s'.table.rows {
        RowAdded(cfg, s, l, s', id);
      }
    }
  }

  lemma SessionsOnly(cfg: Config, s: Sys, l: Label, s': Sys, msg: Message, n: nat)
    requires IsStep(cfg, s, l, s') && !l.DataStep? && NoneFurther(s, msg, n)
    ensures NoneFurther(s', msg, n)
  {
    hide Address.ParseRecipient, KeyFor, ServerAllows, RecordsAfter, Decide, IsBatch, WellFormed;
  }

  lemma SessionMovesOn(cfg: Config, s: Sys, l: Label, s': Sys, msg: Message, n: nat)
    requires IsStep(cfg, s, l, s') && l.DataStep? && NoneFurther(s, msg, n)
    ensures var x := s.sessions[l.sid];
            NoneFurther(s', msg, if Ours(x, msg) && |x.done| == n then n + 1 else n)
  {
    hide Address.ParseRecipient, KeyFor, WellFormed;
    assert forall sid | sid in s.sessions && sid != l.sid :: s'.sessions[sid] == s.sessions[sid];
  }

  /** The step stores its mail. */
  lemma StepStores(cfg: Config, s: Sys, l: Label, s': Sys)
    requires IsStep(cfg, s, l, s') && l.DataStep? && WellFormed(s'.table)
    ensures Contents(s'.table) == AddMail(Contents(s.table), MailOf(cfg, s, l))
  {
    StepTable(cfg, s, l, s');
    hide Contents, MailOf, Insert, IsStep, Enabled;
    if MailOf(cfg, s, l).Some? {
      InsertAdds(s.table, MailOf(cfg, s, l).value, s.now);
    }
  }

  lemma OtherMailAdds(c: map<string, Mail>, mail: Option<Mail>, keys: set<string>)
    requires mail.Some? ==> mail.value.key !in keys
    ensures Only(AddMail(c, mail), keys) == Only(c, keys)
  {
  }

  lemma OwnMailAdds(c: map<string, Mail>, mail: Option<Mail>, keys: set<string>)
    requires mail.Some? ==> mail.value.key in keys
    ensures Only(AddMail(c, mail), keys) == AddMail(Only(c, keys), mail)
  {
  }

  /** The mail of our recipient `k`, whatever random id was drawn. */
  lemma OurMail(cfg: Config, s: Sys, l: Label, msg: Message, domains: set<string>)
    requires Enabled(cfg, s, l) && l.DataStep? && Redelivers(cfg, s, l, msg, domains)
    requires Ours(s.sessions[l.sid], msg) && cfg.messageId(msg.raw).Some?
    ensures var k := |s.sessions[l.sid].done|;
            && k < |msg.rcpts| && MailOf(cfg, s, l) == MailAt(cfg, msg, domains, k)
            && (MailAt(cfg, msg, domains, k).Some? ==> MailAt(cfg, msg, domains, k).value.key in KeysOf(cfg, msg, domains))
  {
    hide Address.ParseRecipient, Keys.IdempotencyKey;
  }

  /** One recipient of one call: nothing new, or the next step of the plan. */
  lemma RecipientStep(cfg: Config, s: Sys, l: Label, s': Sys, c: map<string, Mail>, msg: Message,
                      domains: set<string>, n: nat) returns (n': nat)
    requires IsStep(cfg, s, l, s') && l.DataStep? && Redelivers(cfg, s, l, msg, domains)
    requires cfg.messageId(msg.raw).Some? && Planned(cfg, s, c, msg, domains, n)
    ensures n <= n' && Planned(cfg, s', c, msg, domains, n')
  {
    StepKeepsTable(cfg, s, l);
    SessionMovesOn(cfg, s, l, s', msg, n);
    StepStores(cfg, s, l, s');
    PartIs(cfg, s.table, msg, domains);
    PartIs(cfg, s'.table, msg, domains);
    var x, keys := s.sessions[l.sid], KeysOf(cfg, msg, domains);
    n' := if Ours(x, msg) && |x.done| == n then n + 1 else n;
    if Ours(x, msg) {
      OurMail(cfg, s, l, msg, domains);
      hide Contents, MailAt, MailOf, AddMail, Plan, Only, KeysOf, WellFormed, Redelivers, IsStep, Part;
      OwnMailAdds(Contents(s.table), MailOf(cfg, s, l), keys);
      PlanStep(cfg, c, msg, domains, n, |x.done|);
    } else {
      hide Contents, MailAt, AddMail, Plan, Only, KeysOf, WellFormed, Part;
      OtherMailAdds(Contents(s.table), MailOf(cfg, s, l), keys);
    }
  }

  /** Our session that is acknowledged has handled every recipient. */
  predicate AcksOurs(s: Sys, l: Label, msg: Message) {
    l.DataAck? && l.sid in s.sessions && Ours(s.sessions[l.sid], msg)
  }

  lemma PlannedStep(cfg: Config, s: Sys, l: Label, s': Sys, c: map<string, Mail>, msg: Message,
                    domains: set<string>, n: nat) returns (n': nat)
    requires IsStep(cfg, s, l, s') && Redelivers(cfg, s, l, msg, domains)
    requires cfg.messageId(msg.raw).Some? && Planned(cfg, s, c, msg, domains, n)
    ensures n <= n' && Planned(cfg, s', c, msg, domains, n')
    ensures AcksOurs(s, l, msg) ==> n' == |msg.rcpts|
  {
    if l.DataStep? {
      n' := RecipientStep(cfg, s, l, s', c, msg, domains, n);
    } else {
      n' := n;
      StepKeepsTable(cfg, s, l);
      PartKept(cfg, s, l, s', msg, domains);
      SessionsOnly(cfg, s, l, s', msg, n);
      AckIsComplete(cfg, s, l, msg, n);
      hide Part, Plan, Redelivers, WellFormed, IsStep, NoneFurther, AcksOurs;
    }
  }

  lemma AckIsComplete(cfg: Config, s: Sys, l: Label, msg: Message, n: nat)
    requires Enabled(cfg, s, l) && NoneFurther(s, msg, n) && n <= |msg.rcpts|
    ensures AcksOurs(s, l, msg) ==> n == |msg.rcpts|
  {
  }

  // ---------------------------------------------------------------- runs

  predicate Redelivering(cfg: Config, ss: seq<Sys>, ls: seq<Label>, p: nat, q: nat, msg: Message, domains: set<string>) {
    p <= q <= |ls| && |ss| == |ls| + 1 && forall i | p <= i < q :: Redelivers(cfg, ss[i], ls[i], msg, domains)
  }

  /** A call for this message was answered 250. */
  predicate Acknowledged(ss: seq<Sys>, ls: seq<Label>, p: nat, q: nat, msg: Message)
    requires q <= |ls| < |ss|
  {
    exists i :: p <= i < q && AcksOurs(ss[i], ls[i], msg)
  }

  lemma PlannedAt(cfg: Config, ss: seq<Sys>, ls: seq<Label>, i: nat, c: map<string, Mail>, msg: Message,
                  domains: set<string>, n: nat) returns (n': nat)
    requires IsRun(cfg, ss, ls) && i < |ls| && Redelivers(cfg, ss[i], ls[i], msg, domains)
    requires cfg.messageId(msg.raw).Some? && Planned(cfg, ss[i], c, msg, domains, n)
    ensures n <= n' <= |msg.rcpts| && Planned(cfg, ss[i + 1], c, msg, domains, n')
    ensures AcksOurs(ss[i], ls[i], msg) ==> n' == |msg.rcpts|
  {
    StepOfRun(cfg, ss, ls, i);
    hide *;
    n' := PlannedStep(cfg, ss[i], ls[i], ss[i + 1], c, msg, domains, n);
    PlannedBound(cfg, ss[i + 1], c, msg, domains, n');
  }

  lemma PlannedBound(cfg: Config, s: Sys, c: map<string, Mail>, msg: Message, domains: set<string>, n: nat)
    requires Planned(cfg, s, c, msg, domains, n)
    ensures n <= |msg.rcpts|
  {
    hide WellFormed, Part, Plan, NoneFurther;
  }

  lemma NothingPlanned(cfg: Config, s: Sys, msg: Message, domains: set<string>)
    requires WellFormed(s.table) && NoneFurther(s, msg, 0)
    ensures Planned(cfg, s, Part(cfg, s.table, msg, domains), msg, domains, 0)
  {
    hide Part, WellFormed, NoneFurther;
  }

  lemma LastRedelivers(cfg: Config, ss: seq<Sys>, ls: seq<Label>, p: nat, q: nat, msg: Message, domains: set<string>)
    requires Redelivering(cfg, ss, ls, p, q, msg, domains)
    ensures p <= q <= |ls| && |ss| == |ls| + 1
    ensures p < q ==> Redelivering(cfg, ss, ls, p, q - 1, msg, domains)
    ensures p < q ==> Redelivers(cfg, ss[q - 1], ls[q - 1], msg, domains)
  {
    hide Redelivers;
  }

  lemma AcknowledgedBefore(ss: seq<Sys>, ls: seq<Label>, p: nat, q: nat, msg: Message)
    requires q <= |ls| < |ss|
    ensures p == q ==> !Acknowledged(ss, ls, p, q, msg)
    ensures p < q && Acknowledged(ss, ls, p, q, msg) ==>
              Acknowledged(ss, ls, p, q - 1, msg) || AcksOurs(ss[q - 1], ls[q - 1], msg)
  {
    hide AcksOurs;
  }

  lemma {:induction false} RunPlanned(cfg: Config, ss: seq<Sys>, ls: seq<Label>, p: nat, q: nat,
                                      msg: Message, domains: set<string>) returns (n: nat)
    requires IsRun(cfg, ss, ls) && Redelivering(cfg, ss, ls, p, q, msg, domains)
    requires p <= q <= |ls| < |ss| && WellFormed(ss[p].table) && NoneFurther(ss[p], msg, 0)
    requires cfg.messageId(msg.raw).Some?
    ensures Planned(cfg, ss[q], Part(cfg, ss[p].table, msg, domains), msg, domains, n)
    ensures n <= |msg.rcpts| && (Acknowledged(ss, ls, p, q, msg) ==> n == |msg.rcpts|)
    decreases q
  {
    hide *;
    LastRedelivers(cfg, ss, ls, p, q, msg, domains);
    AcknowledgedBefore(ss, ls, p, q, msg);
    if p == q {
      n := 0;
      NothingPlanned(cfg, ss[p], msg, domains);
    } else {
      var m := RunPlanned(cfg, ss, ls, p, q - 1, msg, domains);
      n := PlannedAt(cfg, ss, ls, q - 1, Part(cfg, ss[p].table, msg, domains), msg, domains, m);
    }
  }

  /** LMTP retry convergence. Between `p` and `q` one message with a Message-ID is delivered
      any number of times, in any number of sessions at once, each failing after any prefix of
      its recipients; some call is acknowledged. Meanwhile other mail arrives, workers run and
      old rows are pruned. Then the table holds of this message exactly what one uninterrupted
      call would have left at `p`. */
  lemma RetriesConverge(cfg: Config, ss: seq<Sys>, ls: seq<Label>, p: nat, q: nat, msg: Message, domains: set<string>)
    requires IsRun(cfg, ss, ls) && Init(ss[0]) && Redelivering(cfg, ss, ls, p, q, msg, domains)
    requires cfg.messageId(msg.raw).Some? && NoneFurther(ss[p], msg, 0)
    requires Acknowledged(ss, ls, p, q, msg)
    ensures WellFormed(ss[p].table) && WellFormed(ss[q].table)
    ensures Part(cfg, ss[q].table, msg, domains) ==
            Plan(cfg, Part(cfg, ss[p].table, msg, domains), msg, domains, |msg.rcpts|)
  {
    RunKeepsTable(cfg, ss, ls, p);
    RunKeepsTable(cfg, ss, ls, q);
    hide IsRun, WellFormed, Redelivering, Acknowledged, NoneFurther, Part, Plan;
    var n := RunPlanned(cfg, ss, ls, p, q, msg, domains);
  }

  /** The plan stays among the message's keys, so nothing of it is cut off above. */
  lemma {:induction false} PlanIsPart(cfg: Config, c: map<string, Mail>, msg: Message, domains: set<string>, n: nat)
    requires n <= |msg.rcpts|
    ensures Plan(cfg, Only(c, KeysOf(cfg, msg, domains)), msg, domains, n) ==
            Only(Plan(cfg, c, msg, domains, n), KeysOf(cfg, msg, domains))
  {
    if n > 0 {
      PlanIsPart(cfg, c, msg, domains, n - 1);
      assert MailAt(cfg, msg, domains, n - 1).Some? ==>
               MailAt(cfg, msg, domains, n - 1).value.key in KeysOf(cfg, msg, domains);
      hide MailAt, KeysOf, AddMail, Only;
      OwnMailAdds(Plan(cfg, c, msg, domains, n - 1), MailAt(cfg, msg, domains, n - 1), KeysOf(cfg, msg, domains));
    }
  }
}
