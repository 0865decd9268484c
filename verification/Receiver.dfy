/** The LMTP handler: which recipients it accepts, what it stores before it answers, and how
    it agrees with the policy service. */
module Receiver {
  import opened Wrappers
  import opened Text
  import opened Timestamps
  import opened Table
  import opened Delivery
  import opened Convergence
  import QueueStore
  import Refinement
  import Address
  import Keys
  import Lookup
  import Policy

  const OK := "250 OK"
  const MALFORMED := "550 5.1.1 Unknown recipient (malformed address or domain)"
  const UNKNOWN := "550 5.1.1 Unknown recipient"
  const TRY_LATER := "451 4.3.0 Temporary failure, try again later"

  /** What the first digit of a reply tells the client (section 4.2.1 of RFC 5321). */
  predicate Positive(reply: string) {
    reply != "" && reply[0] == '2'
  }

  predicate TryAgain(reply: string) {
    reply != "" && reply[0] == '4'
  }

  predicate Refused(reply: string) {
    reply != "" && reply[0] == '5'
  }

  lemma ReplyDigits()
    ensures Positive(OK) && !TryAgain(OK) && !Refused(OK)
    ensures !Positive(MALFORMED) && Refused(MALFORMED) && !Positive(UNKNOWN) && Refused(UNKNOWN)
    ensures !Positive(TRY_LATER) && TryAgain(TRY_LATER)
    ensures MALFORMED != UNKNOWN
  {
    assert OK[0] == '2' && MALFORMED[0] == '5' && UNKNOWN[0] == '5' && TRY_LATER[0] == '4';
    assert |MALFORMED| != |UNKNOWN|;
  }

  class Envelope {
    const mailFrom: string
    const content: Bytes
    var rcptTos: seq<string>

    constructor (mailFrom: string, content: Bytes)
      ensures this.mailFrom == mailFrom && this.content == content && rcptTos == []
    {
      this.mailFrom, this.content, rcptTos := mailFrom, content, [];
    }
  }

  // ---------------------------------------------------------------- RCPT

  /** The answer to RCPT; None stands for an exception of the lookup. */
  function RcptAnswer(address: string, look: Policy.Look): Option<string> {
    if look.hosts.None? then None
    else
      match Address.ParseRecipient(address, look.hosts.value)
      case None => Some(MALFORMED)
      case Some(p) =>
        if look.loaded.None? then None
        else if Lookup.Resolve(look.loaded.value, p.dsId).None? then Some(UNKNOWN)
        else Some(OK)
  }

  /** What one recipient of `handle_DATA` meets: the hosts allowed then (None when the lookup
      raises), a fresh random id, the clock, and whether the INSERT raises. */
  datatype RecipientTurn = RecipientTurn(hosts: Option<set<string>>, uuid: string, now: Instant, fails: bool)

  /** The loop stops at this recipient. */
  predicate Stops(rcpt: string, turn: RecipientTurn) {
    turn.hosts.None? || (turn.fails && Address.ParseRecipient(rcpt, turn.hosts.value).Some?)
  }

  /** The first recipient from `k` on at which the loop stops. */
  function FirstFailure(rcpts: seq<string>, turns: nat -> RecipientTurn, k: nat): (n: nat)
    requires k <= |rcpts|
    ensures k <= n <= |rcpts|
    ensures n < |rcpts| ==> Stops(rcpts[n], turns(n))
    ensures forall i: nat | k <= i < n :: !Stops(rcpts[i], turns(i))
    decreases |rcpts| - k
  {
    if k == |rcpts| || Stops(rcpts[k], turns(k)) then k else FirstFailure(rcpts, turns, k + 1)
  }

  /** What `handle_DATA` answers. */
  function DataAnswer(rcpts: seq<string>, turns: nat -> RecipientTurn): (reply: string)
    ensures Positive(reply) <==> FirstFailure(rcpts, turns, 0) == |rcpts|
    ensures TryAgain(reply) <==> FirstFailure(rcpts, turns, 0) < |rcpts|
  {
    ReplyDigits();
    if FirstFailure(rcpts, turns, 0) == |rcpts| then OK else TRY_LATER
  }

  /** A message is acknowledged exactly when the lookup answered for each recipient and each
      INSERT that was made went through. A recipient that does not parse fails nothing. */
  lemma AcknowledgedIff(rcpts: seq<string>, turns: nat -> RecipientTurn)
    ensures Positive(DataAnswer(rcpts, turns)) <==> forall k: nat | k < |rcpts| :: GotThrough(rcpts[k], turns(k))
  {
    hide DataAnswer, Positive, FirstFailure, Address.ParseRecipient;
    var n := FirstFailure(rcpts, turns, 0);
    if n < |rcpts| {
      assert Stops(rcpts[n], turns(n)) && !GotThrough(rcpts[n], turns(n));
    } else {
      forall k: nat | k < |rcpts|
        ensures GotThrough(rcpts[k], turns(k))
      {
        assert !Stops(rcpts[k], turns(k));
      }
    }
  }

  predicate GotThrough(rcpt: string, turn: RecipientTurn) {
    turn.hosts.Some? && (Address.ParseRecipient(rcpt, turn.hosts.value).None? || !turn.fails)
  }

  /** The table after one recipient. */
  function AfterStoring(cfg: Config, t: Table, msg: Message, rcpt: string, turn: RecipientTurn): (r: Table)
    requires WellFormed(t) && turn.hosts.Some?
    ensures WellFormed(r)
  {
    match Address.ParseRecipient(rcpt, turn.hosts.value)
    case None => t
    case Some(p) => Insert(t, MailFor(cfg, Session(msg.sender, msg.raw, [], []), rcpt, p, turn.uuid), turn.now)
  }

  /** The table after the first `n` recipients. */
  function AfterRecipients(cfg: Config, t: Table, msg: Message, turns: nat -> RecipientTurn, n: nat): (r: Table)
    requires WellFormed(t) && n <= |msg.rcpts|
    requires forall i: nat | i < n :: turns(i).hosts.Some?
    ensures WellFormed(r)
  {
    if n == 0 then t
    else AfterStoring(cfg, AfterRecipients(cfg, t, msg, turns, n - 1), msg, msg.rcpts[n - 1], turns(n - 1))
  }

  class LMTPHandler {
    const queue: QueueStore.Queue
    const cfg: Config

    constructor (queue: QueueStore.Queue, cfg: Config)
      ensures this.queue == queue && this.cfg == cfg
    {
      this.queue, this.cfg := queue, cfg;
    }

    method HandleRcpt(envelope: Envelope, address: string, look: Policy.Look) returns (reply: Option<string>)
      modifies envelope
      ensures reply == RcptAnswer(address, look)
      ensures reply.Some? ==> Positive(reply.value) || Refused(reply.value)
      ensures envelope.rcptTos == old(envelope.rcptTos) + if reply.Some? && Positive(reply.value) then [address] else []
    {
      ReplyDigits();
      if look.hosts.None? {
        return None;
      }
      var parsed := Address.ParseRecipient(address, look.hosts.value);
      if parsed.None? {
        return Some(MALFORMED);
      }
      if look.loaded.None? {
        return None;
      }
      if Lookup.Resolve(look.loaded.value, parsed.value.dsId).None? {
        return Some(UNKNOWN);
      }
      envelope.rcptTos := envelope.rcptTos + [address];
      return Some(OK);
    }

    /** Stores a row for each recipient that still parses, in order, and answers 250 when it
        got through all of them; at the first exception it answers 451 and leaves what it has
        stored. */
    method HandleData(envelope: Envelope, turns: nat -> RecipientTurn) returns (reply: string)
      requires queue.Valid()
      modifies queue
      ensures queue.Valid()
      ensures var msg := Message(envelope.mailFrom, envelope.content, envelope.rcptTos);
              var n := FirstFailure(msg.rcpts, turns, 0);
              && reply == DataAnswer(msg.rcpts, turns)
              && (Positive(reply) <==> n == |msg.rcpts|) && (TryAgain(reply) <==> n < |msg.rcpts|)
              && queue.table == AfterRecipients(cfg, old(queue.table), msg, turns, n)
    {
      hide Address.ParseRecipient, WellFormed, Insert, KeyFor;
      ghost var msg := Message(envelope.mailFrom, envelope.content, envelope.rcptTos);
      var messageId := cfg.messageId(envelope.content);
      var k := 0;
      while k < |envelope.rcptTos|
        invariant queue.Valid() && k <= |msg.rcpts|
        invariant FirstFailure(msg.rcpts, turns, k) == FirstFailure(msg.rcpts, turns, 0)
        invariant queue.table == AfterRecipients(cfg, old(queue.table), msg, turns, k)
      {
        var rcpt, turn := envelope.rcptTos[k], turns(k);
        if turn.hosts.None? {
          return TRY_LATER;
        }
        var parsed := Address.ParseRecipient(rcpt, turn.hosts.value);
        if parsed.Some? {
          var key := if messageId.Some?
                     then Keys.IdempotencyKey(cfg.hash, parsed.value.domain, Keys.LocalPart(rcpt), messageId.value)
                     else Keys.NOMID + turn.uuid;
          if turn.fails {
            return TRY_LATER;
          }
          KeyIs(cfg, parsed.value, rcpt, envelope.content, turn.uuid);
          var id, created := queue.Enqueue(
            Mail(envelope.mailFrom, rcpt, parsed.value.dsId, parsed.value.mailbox, key, envelope.content), turn.now);
        }
        k := k + 1;
      }
      return OK;
    }
  }

  lemma KeyIs(cfg: Config, p: Address.ParsedAddress, rcpt: string, raw: Bytes, uuid: string)
    ensures KeyFor(cfg, p, rcpt, raw, uuid) ==
            if cfg.messageId(raw).Some?
            then Keys.IdempotencyKey(cfg.hash, p.domain, Keys.LocalPart(rcpt), cfg.messageId(raw).value)
            else Keys.NOMID + uuid
  {
  }

  // ---------------------------------------------------------------- what 250 stands for

  /** Every row of `t` is still there, as it was. */
  predicate Grows(t: Table, r: Table) {
    forall id | id in t.rows :: id in r.rows && r.rows[id] == t.rows[id]
  }

  lemma GrowsTwice(t: Table, r: Table, u: Table)
    requires Grows(t, r) && Grows(r, u)
    ensures Grows(t, u)
  {
  }

  /** Rows never leave or change while recipients are stored, and every recipient that got
      through and parsed has a row under its key. */
  lemma {:induction false} AckedIsStored(cfg: Config, t: Table, msg: Message, turns: nat -> RecipientTurn, n: nat)
    requires WellFormed(t) && n <= |msg.rcpts|
    requires forall i: nat | i < n :: turns(i).hosts.Some?
    ensures Grows(t, AfterRecipients(cfg, t, msg, turns, n))
    ensures forall k: nat | k < n :: IsStored(cfg, AfterRecipients(cfg, t, msg, turns, n), msg, msg.rcpts[k], turns(k))
  {
    hide IsStored, AfterStoring, WellFormed;
    if n > 0 {
      hide Grows;
      AckedIsStored(cfg, t, msg, turns, n - 1);
      var before, r := AfterRecipients(cfg, t, msg, turns, n - 1), AfterRecipients(cfg, t, msg, turns, n);
      StoredKeeps(cfg, before, msg, msg.rcpts[n - 1], turns(n - 1));
      GrowsTwice(t, before, r);
      hide AfterRecipients;
      forall k: nat | k < n
        ensures IsStored(cfg, r, msg, msg.rcpts[k], turns(k))
      {
        if k < n - 1 {
          StaysStored(cfg, before, r, msg, msg.rcpts[k], turns(k));
        }
      }
    }
  }

  predicate IsStored(cfg: Config, t: Table, msg: Message, rcpt: string, turn: RecipientTurn)
    requires turn.hosts.Some?
  {
    var p := Address.ParseRecipient(rcpt, turn.hosts.value);
    p.Some? ==> HasKey(t, KeyFor(cfg, p.value, rcpt, msg.raw, turn.uuid))
  }

  lemma StaysStored(cfg: Config, t: Table, t': Table, msg: Message, rcpt: string, turn: RecipientTurn)
    requires turn.hosts.Some? && IsStored(cfg, t, msg, rcpt, turn) && Grows(t, t')
    ensures IsStored(cfg, t', msg, rcpt, turn)
  {
  }

  lemma StoredKeeps(cfg: Config, t: Table, msg: Message, rcpt: string, turn: RecipientTurn)
    requires WellFormed(t) && turn.hosts.Some?
    ensures Grows(t, AfterStoring(cfg, t, msg, rcpt, turn))
    ensures IsStored(cfg, AfterStoring(cfg, t, msg, rcpt, turn), msg, rcpt, turn)
  {
    hide Address.ParseRecipient, KeyFor;
    var p := Address.ParseRecipient(rcpt, turn.hosts.value);
    if p.Some? {
      var key := KeyFor(cfg, p.value, rcpt, msg.raw, turn.uuid);
      if !HasKey(t, key) {
        assert AfterStoring(cfg, t, msg, rcpt, turn).rows[t.nextId].mail.key == key;
      }
    }
  }

  /** With a Message-ID and unchanged hosts, the loop stores exactly the plan of the message,
      whatever random ids it draws. */
  lemma {:induction false} ContentsArePlan(cfg: Config, t: Table, msg: Message, turns: nat -> RecipientTurn,
                                           hosts: set<string>, n: nat)
    requires WellFormed(t) && n <= |msg.rcpts| && cfg.messageId(msg.raw).Some?
    requires forall i: nat | i < n :: turns(i).hosts == Some(hosts)
    ensures Contents(AfterRecipients(cfg, t, msg, turns, n)) == Plan(cfg, Contents(t), msg, hosts, n)
  {
    hide Contents, MailAt, AfterStoring, AddMail;
    if n > 0 {
      ContentsArePlan(cfg, t, msg, turns, hosts, n - 1);
      StoredAdds(cfg, AfterRecipients(cfg, t, msg, turns, n - 1), msg, n - 1, turns(n - 1), hosts);
    }
  }

  lemma StoredAdds(cfg: Config, t: Table, msg: Message, k: nat, turn: RecipientTurn, hosts: set<string>)
    requires WellFormed(t) && k < |msg.rcpts| && turn.hosts == Some(hosts) && cfg.messageId(msg.raw).Some?
    ensures Contents(AfterStoring(cfg, t, msg, msg.rcpts[k], turn)) == AddMail(Contents(t), MailAt(cfg, msg, hosts, k))
  {
    hide Contents, Address.ParseRecipient, Keys.IdempotencyKey, Insert, WellFormed;
    var p := Address.ParseRecipient(msg.rcpts[k], hosts);
    if p.Some? {
      InsertAdds(t, MailFor(cfg, Session(msg.sender, msg.raw, [], []), msg.rcpts[k], p.value, turn.uuid), turn.now);
    }
  }

  // ---------------------------------------------------------------- the two gates

  /** For the address the policy service evaluates, the verdict is OK exactly when RCPT
      answers 250 under the same view of the lookup. */
  lemma GatesAgree(attrs: Policy.Attrs, look: Policy.Look)
    requires "recipient" in attrs
    ensures Policy.Evaluate(attrs, look) == Some("OK") <==> Accepts(Strip(attrs["recipient"]), look)
  {
    AcceptsIff(Strip(attrs["recipient"]), look);
    hide Lookup.Resolve, Address.IsValidDsId, Address.SplitLocal, RcptAnswer, Accepts;
  }

  predicate Accepts(address: string, look: Policy.Look) {
    RcptAnswer(address, look).Some? && Positive(RcptAnswer(address, look).value)
  }

  /** RCPT refuses for good whatever it does not accept, and says whether the address is
      malformed or foreign, or its data source unknown. */
  lemma RcptAnswersTell(address: string, look: Policy.Look)
    requires RcptAnswer(address, look).Some?
    ensures Accepts(address, look) || Refused(RcptAnswer(address, look).value)
    ensures RcptAnswer(address, look) == Some(MALFORMED) <==> Address.ParseRecipient(address, look.hosts.value).None?
  {
    hide Address.ParseRecipient, Lookup.Resolve;
    ReplyDigits();
    hide Positive, Refused;
  }

  lemma AcceptsParsed(address: string, look: Policy.Look)
    ensures Accepts(address, look) ==>
              look.hosts.Some? && look.loaded.Some? && Address.ParseRecipient(address, look.hosts.value).Some?
  {
    ReplyDigits();
    hide Address.ParseRecipient, Lookup.Resolve, Positive, Refused;
  }

  predicate HostsTrimmed(look: Policy.Look) {
    look.hosts.Some? ==> forall h | h in look.hosts.value :: Trimmed(h)
  }

  /** An address that parses has no white space around it. */
  lemma ParsedIsTrimmed(address: string, hosts: set<string>)
    requires Address.ParseRecipient(address, hosts).Some? && forall h | h in hosts :: Trimmed(h)
    ensures Trimmed(address)
  {
    var at := FindLast(address, '@');
    var domain := Lower(address[at + 1..]);
    var ds := Address.SplitLocal(address[..at]).0;
    assert domain in hosts && Address.IsValidDsId(Lower(ds));
    hide Address.SplitLocal, Address.IsValidDsId, FindLast, Address.ParseRecipient;
    if at + 1 < |address| {
      assert domain[|domain| - 1] == LowerChar(address[|address| - 1]);
    }
    StartsPlain(address[..at]);
  }

  /** A local part with a valid ds_id does not start with white space. */
  lemma StartsPlain(local: string)
    requires Address.IsValidDsId(Lower(Address.SplitLocal(local).0))
    ensures local != "" && !IsSpace(local[0])
  {
    var ds := Address.SplitLocal(local).0;
    Address.ValidDsIdForm(Lower(ds));
    FirstIsDs(local);
    assert Lower(ds)[0] == LowerChar(ds[0]);
    hide Address.SplitLocal, Address.IsValidDsId;
  }

  /** A local part that does not start with a separator starts with its ds_id. */
  lemma FirstIsDs(local: string)
    requires Address.SplitLocal(local).0 != ""
    ensures local != "" && Address.SplitLocal(local).0[0] == local[0]
  {
  }

  /** What acceptance asks of an address besides its host. */
  predicate Served(address: string, look: Policy.Look) {
    && FindLast(address, '@') >= 0 && look.loaded.Some?
    && var ds := Lower(Address.SplitLocal(address[..FindLast(address, '@')]).0);
    Address.IsValidDsId(ds) && Lookup.Resolve(look.loaded.value, ds).Some?
  }

  predicate HostAllowed(address: string, look: Policy.Look) {
    look.hosts.Some? && Address.DomainOf(address) in look.hosts.value
  }

  lemma AcceptsIff(address: string, look: Policy.Look)
    ensures Accepts(address, look) <==> HostAllowed(address, look) && Served(address, look)
  {
    hide Lookup.Resolve, Address.IsValidDsId, Address.SplitLocal;
    ReplyDigits();
    hide Positive, Refused, TryAgain;
  }

  predicate LeadingSpace(s: string) {
    s != "" && IsSpace(s[0])
  }

  /** Stripping changes the host of an address at most, if nothing stands before it. */
  lemma ServedStripped(address: string, look: Policy.Look)
    ensures Served(address, look) <==> !LeadingSpace(address) && Served(Strip(address), look)
  {
    hide Lookup.Resolve, Address.IsValidDsId, Address.SplitLocal, StripLeft;
    if LeadingSpace(address) {
      if FindLast(address, '@') >= 0 {
        LeadingIsInvalid(address[..FindLast(address, '@')]);
      }
    } else {
      StripsRight(address);
      var s := Strip(address);
      var rest := address[|s|..];
      assert address == s + rest;
      hide FindLast, StripRight, IsSpace;
      FindLastIgnores(s, rest, '@');
      var at := FindLast(s, '@');
      if at >= 0 {
        assert address[..at] == s[..at];
      }
    }
  }

  /** Without leading white space, stripping cuts white space off the end. */
  lemma StripsRight(address: string)
    requires !LeadingSpace(address)
    ensures var s := Strip(address); |s| <= |address| && s == address[..|s|] && '@' !in address[|s|..]
  {
    assert StripLeft(address) == address;
    var s := StripRight(address);
    hide StripRight;
    assert forall i | |s| <= i < |address| :: address[i] != '@';
  }

  /** No ds_id starts with white space. */
  lemma LeadingIsInvalid(local: string)
    requires local == "" || LeadingSpace(local)
    ensures !Address.IsValidDsId(Lower(Address.SplitLocal(local).0))
  {
    var ds := Address.SplitLocal(local).0;
    if ds != "" {
      FirstIsDs(local);
      assert Lower(ds)[0] == LowerChar(ds[0]);
    }
    Address.ValidDsIdForm(Lower(ds));
  }

  /** The policy service strips the address it is asked about, RCPT does not. On the raw text
      the two disagree exactly when the stripped address is served and stripping matters for
      its host: it makes an allowed host of one that is not, or the other way round. */
  lemma RawGatesAgreeIff(address: string, look: Policy.Look)
    ensures (Policy.Evaluate(map["recipient" := address], look) == Some("OK") <==> Accepts(address, look)) <==>
            !Served(Strip(address), look)
            || (HostAllowed(Strip(address), look) <==> !LeadingSpace(address) && HostAllowed(address, look))
  {
    GatesAgree(map["recipient" := address], look);
    AcceptsIff(address, look);
    AcceptsIff(Strip(address), look);
    ServedStripped(address, look);
    hide *;
  }

  /** If no allowed host has white space around it, they disagree exactly for a text with
      white space around an acceptable address. */
  lemma TrimmedHostsAgreeIff(address: string, look: Policy.Look)
    requires HostsTrimmed(look)
    ensures (Policy.Evaluate(map["recipient" := address], look) == Some("OK") <==> Accepts(address, look))
            <==> Trimmed(address) || !Accepts(Strip(address), look)
  {
    GatesAgree(map["recipient" := address], look);
    AcceptsParsed(address, look);
    hide Positive, Accepts, RcptAnswer, Address.ParseRecipient, Policy.Evaluate, Strip;
    if Trimmed(address) {
      StripTrimmed(address);
    } else if Accepts(address, look) {
      ParsedIsTrimmed(address, look.hosts.value);
      assert false;
    }
  }

  /** Over the protocol: the verdict on a request that names a recipient is OK exactly when
      RCPT accepts that recipient, and the last one named counts. */
  lemma ProtocolGatesAgree(fields: seq<Policy.Field>, eol: string, rest: string, i: nat, look: Policy.Look)
    requires Policy.GoodFields(fields, eol) && Policy.IsLineEnd(eol) && Policy.LastField(fields, "recipient", i)
    ensures var r := Policy.Reading(map[], Policy.Serialize(fields, eol) + rest);
            && r.Request? && r.rest == rest
            && (Policy.Evaluate(r.attrs, look) == Some("OK") <==> Accepts(fields[i].1, look))
  {
    assert Policy.GoodField(fields[i], eol);
    StripTrimmed(fields[i].1);
    hide Policy.Reading, Policy.Evaluate, RcptAnswer, Strip, Policy.GoodField;
    Policy.ReadsFields(map[], fields, eol, rest);
    Policy.LastFieldWins(map[], fields, "recipient", i);
    GatesAgree(Policy.Filled(map[], fields), look);
  }

  /** An accepted recipient that is stored, whatever hosts are allowed by then, is stored for
      a data source that the lookup RCPT saw resolves. */
  lemma AcceptedIsResolvable(address: string, look: Policy.Look, hosts: set<string>)
    requires Accepts(address, look) && Address.ParseRecipient(address, hosts).Some?
    ensures look.loaded.Some?
    ensures Address.ParseRecipient(address, hosts).value.dsId in look.loaded.value.dataSources
  {
    AcceptsIff(address, look);
    hide RcptAnswer, Accepts;
    Address.ParseIgnoresOtherHosts(address, look.hosts.value);
    Address.ParseIgnoresOtherHosts(address, hosts);
    var p := Address.ParseRecipient(address, hosts).value;
    assert Address.IsValidDsId(p.dsId);
    hide Address.ParseRecipient;
    Address.ValidDsIdChars(p.dsId);
  }

  // ---------------------------------------------------------------- refinement

  /** The steps of the step system that storing one recipient takes. */
  function RecipientLabels(sid: nat, turn: RecipientTurn): seq<Label>
    requires turn.hosts.Some?
  {
    [Clock(turn.now), DataStep(sid, turn.hosts.value, turn.uuid)]
  }

  function DataLabels(sid: nat, turns: nat -> RecipientTurn, n: nat): seq<Label>
    requires forall i: nat | i < n :: turns(i).hosts.Some?
  {
    if n == 0 then [] else DataLabels(sid, turns, n - 1) + RecipientLabels(sid, turns(n - 1))
  }

  /** Hosts without `/`, and a key text among those taken to be free of collisions. */
  predicate Covers(cfg: Config, msg: Message, rcpt: string, turn: RecipientTurn) {
    turn.hosts.Some? ==>
      && (forall h | h in turn.hosts.value :: '/' !in h)
      && var p := Address.ParseRecipient(rcpt, turn.hosts.value);
      p.Some? && cfg.messageId(msg.raw).Some? ==> PayloadFor(p.value, rcpt, cfg.messageId(msg.raw).value) in cfg.payloads
  }

  /** Where the step system stands with `n` recipients done: only the table and this session
      have moved. */
  predicate Stands(cfg: Config, s: Sys, sid: nat, msg: Message, turns: nat -> RecipientTurn, n: nat, r: Sys)
    requires WellFormed(s.table) && n <= |msg.rcpts| && forall i: nat | i < n :: turns(i).hosts.Some?
  {
    && r.table == AfterRecipients(cfg, s.table, msg, turns, n)
    && sid in r.sessions && r.sessions - {sid} == s.sessions
    && r.sessions[sid] == Session(msg.sender, msg.raw, msg.rcpts, r.sessions[sid].done)
    && |r.sessions[sid].done| == n
    && r.workers == s.workers && r.records == s.records && r.log == s.log
  }

  lemma OneRecipient(cfg: Config, s: Sys, sid: nat, msg: Message, turns: nat -> RecipientTurn, n: nat, r: Sys)
    requires WellFormed(s.table) && n < |msg.rcpts| && forall i: nat | i <= n :: turns(i).hosts.Some?
    requires Stands(cfg, s, sid, msg, turns, n, r) && Covers(cfg, msg, msg.rcpts[n], turns(n))
    ensures var r' := Refinement.Exec(cfg, r, RecipientLabels(sid, turns(n)));
            r'.Some? && Stands(cfg, s, sid, msg, turns, n + 1, r'.value)
  {
    var turn := turns(n);
    var r1 := Next(cfg, r, Clock(turn.now));
    var step := DataStep(sid, turn.hosts.value, turn.uuid);
    assert r1 == r.(now := turn.now);
    RecipientMoves(cfg, r1, sid, msg, n, turn);
    TwoSteps(cfg, r, Clock(turn.now), step);
    var r2 := Next(cfg, r1, step);
    hide Next, Enabled, WellFormed, AfterStoring;
    assert r2.sessions - {sid} == s.sessions;
  }

  lemma RecipientMoves(cfg: Config, s: Sys, sid: nat, msg: Message, n: nat, turn: RecipientTurn)
    requires WellFormed(s.table) && n < |msg.rcpts| && turn.hosts.Some? && s.now == turn.now
    requires Covers(cfg, msg, msg.rcpts[n], turn) && sid in s.sessions && |s.sessions[sid].done| == n
    requires s.sessions[sid] == Session(msg.sender, msg.raw, msg.rcpts, s.sessions[sid].done)
    ensures var step := DataStep(sid, turn.hosts.value, turn.uuid);
            && Enabled(cfg, s, step)
            && var r := Next(cfg, s, step);
            && r.table == AfterStoring(cfg, s.table, msg, msg.rcpts[n], turn)
            && sid in r.sessions && r.sessions - {sid} == s.sessions - {sid}
            && r.sessions[sid] == Session(msg.sender, msg.raw, msg.rcpts, r.sessions[sid].done)
            && |r.sessions[sid].done| == n + 1
            && r.workers == s.workers && r.records == s.records && r.log == s.log
  {
    hide Address.ParseRecipient, KeyFor, Insert, WellFormed, HasKey;
  }

  lemma TwoSteps(cfg: Config, s: Sys, a: Label, b: Label)
    requires WellFormed(s.table) && Enabled(cfg, s, a)
    requires WellFormed(Next(cfg, s, a).table) && Enabled(cfg, Next(cfg, s, a), b)
    ensures Refinement.Exec(cfg, s, [a, b]) == Some(Next(cfg, Next(cfg, s, a), b))
  {
    hide Next, Enabled, WellFormed;
    assert [a, b][1..] == [b] && [b][1..] == [];
    assert Refinement.Exec(cfg, Next(cfg, Next(cfg, s, a), b), []).Some?;
    assert Refinement.Exec(cfg, Next(cfg, s, a), [b]).Some?;
  }

  lemma {:induction false} RecipientsRefine(cfg: Config, s: Sys, sid: nat, msg: Message,
                                            turns: nat -> RecipientTurn, n: nat, r: Sys)
    requires WellFormed(s.table) && n <= |msg.rcpts| && forall i: nat | i < n :: turns(i).hosts.Some?
    requires forall i: nat | i < n :: Covers(cfg, msg, msg.rcpts[i], turns(i))
    requires Stands(cfg, s, sid, msg, turns, 0, r)
    ensures var r' := Refinement.Exec(cfg, r, DataLabels(sid, turns, n));
            r'.Some? && Stands(cfg, s, sid, msg, turns, n, r'.value)
  {
    hide Next, Enabled, WellFormed, Covers, Stands, RecipientLabels;
    if n > 0 {
      RecipientsRefine(cfg, s, sid, msg, turns, n - 1, r);
      hide Refinement.Exec;
      OneRecipient(cfg, s, sid, msg, turns, n - 1, Refinement.Exec(cfg, r, DataLabels(sid, turns, n - 1)).value);
      Refinement.ExecConcat(cfg, r, DataLabels(sid, turns, n - 1), RecipientLabels(sid, turns(n - 1)));
    }
  }

  function DataBeginOf(sid: nat, msg: Message): Label {
    DataBegin(sid, msg.sender, msg.raw, msg.rcpts)
  }

  function EndOf(sid: nat, msg: Message, n: nat): Label {
    if n == |msg.rcpts| then DataAck(sid) else DataFail(sid)
  }

  /** The session is over: the table is the one `HandleData` leaves, and an acknowledgement of
      the whole message is logged exactly with a positive reply. */
  predicate SessionOver(cfg: Config, s: Sys, msg: Message, turns: nat -> RecipientTurn, n: nat, reply: string, r: Sys)
    requires WellFormed(s.table) && n <= |msg.rcpts| && forall i: nat | i < n :: turns(i).hosts.Some?
  {
    && r.table == AfterRecipients(cfg, s.table, msg, turns, n)
    && r.sessions == s.sessions && r.workers == s.workers && r.records == s.records
    && if !Positive(reply) then r.log == s.log
       else
         && |r.log| == |s.log| + 1 && r.log[..|s.log|] == s.log
         && var e := r.log[|s.log|];
         e.Acked? && e.sender == msg.sender && e.raw == msg.raw && e.rcpts == msg.rcpts && |e.done| == |e.rcpts|
  }

  /** Whatever one call of `HandleData` meets, the step system has a run from the same table
      that leaves the same table, ends the session, and logs an acknowledgement exactly when
      the call answers 250. */
  lemma DataRefines(cfg: Config, s: Sys, sid: nat, msg: Message, turns: nat -> RecipientTurn)
    requires WellFormed(s.table) && sid !in s.sessions
    requires forall i: nat | i < |msg.rcpts| :: Covers(cfg, msg, msg.rcpts[i], turns(i))
    ensures var n := FirstFailure(msg.rcpts, turns, 0);
            var r := Refinement.Exec(cfg, s, [DataBeginOf(sid, msg)] + (DataLabels(sid, turns, n) + [EndOf(sid, msg, n)]));
            && r.Some? && SessionOver(cfg, s, msg, turns, n, DataAnswer(msg.rcpts, turns), r.value)
  {
    var n := FirstFailure(msg.rcpts, turns, 0);
    var begin, end := DataBeginOf(sid, msg), EndOf(sid, msg, n);
    var r0 := Begins(cfg, s, sid, msg, turns);
    hide Next, Enabled, WellFormed, Covers, Stands, FirstFailure, DataLabels, AfterRecipients, DataBeginOf, EndOf;
    hide SessionOver, DataAnswer, Positive;
    RecipientsRefine(cfg, s, sid, msg, turns, n, r0);
    hide Refinement.Exec;
    var r1 := Refinement.Exec(cfg, r0, DataLabels(sid, turns, n)).value;
    Ends(cfg, s, sid, msg, turns, n, DataAnswer(msg.rcpts, turns), r1);
    Refinement.ExecConcat(cfg, r0, DataLabels(sid, turns, n), [end]);
    Refinement.FirstLabel(cfg, s, begin, DataLabels(sid, turns, n) + [end]);
  }

  lemma Begins(cfg: Config, s: Sys, sid: nat, msg: Message, turns: nat -> RecipientTurn) returns (r: Sys)
    requires WellFormed(s.table) && sid !in s.sessions
    ensures Enabled(cfg, s, DataBeginOf(sid, msg)) && r == Next(cfg, s, DataBeginOf(sid, msg))
    ensures Stands(cfg, s, sid, msg, turns, 0, r)
  {
    r := Next(cfg, s, DataBeginOf(sid, msg));
    assert r.sessions - {sid} == s.sessions;
  }

  lemma Ends(cfg: Config, s: Sys, sid: nat, msg: Message, turns: nat -> RecipientTurn, n: nat, reply: string, r: Sys)
    requires Positive(reply) <==> n == |msg.rcpts|
    requires WellFormed(s.table) && n <= |msg.rcpts| && forall i: nat | i < n :: turns(i).hosts.Some?
    requires Stands(cfg, s, sid, msg, turns, n, r)
    ensures var r' := Refinement.Exec(cfg, r, [EndOf(sid, msg, n)]);
            && r'.Some? && SessionOver(cfg, s, msg, turns, n, reply, r'.value)
  {
    var end := EndOf(sid, msg, n);
    hide AfterRecipients, WellFormed;
    assert Enabled(cfg, r, end);
    var r' := Next(cfg, r, end);
    assert [end][1..] == [];
    assert Refinement.Exec(cfg, r', []) == Some(r');
    assert Refinement.Exec(cfg, r, [end]) == Some(r');
  }
}
