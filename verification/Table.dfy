/** The `queue` table and the meaning of each SQL statement run against it. */
module Table {
  import opened Wrappers
  import opened Timestamps
  import Json
  import Client

  newtype Byte = i: int | 0 <= i < 256
  type Bytes = seq<Byte>

  datatype State = Pending | InFlight | Delivered | DeadLetter

  /** The columns that are written once, when the row is inserted. */
  datatype Mail = Mail(
    sender: string,
    recipient: string,
    dsId: string,
    mailbox: Option<string>,
    key: string,
    raw: Bytes)

  /** Why a row failed; the text built from it is not modelled. */
  datatype Reason =
    | UnknownDataSource(dsId: string)
    | ParseFailure
    | Http(status: int, cause: Option<Client.Cause>)
    | AttemptsExhausted(status: int, cause: Option<Client.Cause>)

  datatype Row = Row(
    id: nat,
    state: State,
    receivedAt: Instant,
    mail: Mail,
    attemptCount: nat,
    nextAttemptAt: Option<Instant>,
    lastError: Option<Reason>,
    deliveredAt: Option<Instant>,
    deliveredMessageId: Json.Value,
    deadLetterReason: Option<Reason>)
  {
    predicate Live() {
      state.Pending? || state.InFlight?
    }
  }

  /** `nextId` is the AUTOINCREMENT counter: ids are never used twice. */
  datatype Table = Table(rows: map<nat, Row>, nextId: nat)

  const EMPTY := Table(map[], 1)

  predicate HasKey(t: Table, key: string) {
    exists id :: id in t.rows && t.rows[id].mail.key == key
  }

  /** The primary key and the unique index on `idempotency_key`. */
  predicate WellFormed(t: Table) {
    && (forall id | id in t.rows :: id < t.nextId && t.rows[id].id == id)
    && (forall i, j | i in t.rows && j in t.rows :: t.rows[i].mail.key == t.rows[j].mail.key ==> i == j)
  }

  function NewRow(id: nat, mail: Mail, now: Instant): Row {
    Row(id, Pending, Truncate(now), mail, 0, None, None, None, Json.Null, None)
  }

  /** `INSERT ... ON CONFLICT(idempotency_key) DO NOTHING`. */
  function Insert(t: Table, mail: Mail, now: Instant): (r: Table)
    requires WellFormed(t)
    ensures WellFormed(r)
  {
    if HasKey(t, mail.key) then t
    else Table(t.rows[t.nextId := NewRow(t.nextId, mail, now)], t.nextId + 1)
  }

  /** The columns of a mail that has just been stored: not tried, not failed, not delivered. */
  predicate Untried(row: Row, mail: Mail, now: Instant) {
    && row.mail == mail && row.state == Pending && row.receivedAt == Truncate(now)
    && row.attemptCount == 0 && row.nextAttemptAt == None && row.lastError == None
    && row.deliveredAt == None && row.deliveredMessageId == Json.Null && row.deadLetterReason == None
  }

  predicate Due(row: Row, now: Instant) {
    row.state.Pending? && (row.nextAttemptAt.None? || row.nextAttemptAt.value <= Truncate(now))
  }

  predicate DueIn(t: Table, now: Instant, id: nat) {
    id in t.rows && Due(t.rows[id], now)
  }

  predicate Distinct(ids: seq<nat>) {
    forall i, j | 0 <= i < j < |ids| :: ids[i] != ids[j]
  }

  lemma {:induction false} SetOfDistinct(ids: seq<nat>)
    requires Distinct(ids)
    ensures |Ids(ids)| == |ids|
  {
    if ids != [] {
      var init, last := ids[..|ids| - 1], ids[|ids| - 1];
      SetOfDistinct(init);
      assert last !in init;
      assert ids == init + [last];
      assert Ids(ids) == Ids(init) + {last};
    }
  }

  function Ids(ids: seq<nat>): set<nat> {
    set id | id in ids
  }

  /** What the SELECT of `dequeue_batch` may return: due rows, oldest first, up to the
      limit, leaving out only rows received no earlier. SQLite leaves the order of rows
      received in the same second open. A negative LIMIT is no limit. */
  predicate IsBatch(t: Table, now: Instant, limit: int, ids: seq<nat>) {
    && Distinct(ids)
    && (forall i | 0 <= i < |ids| :: DueIn(t, now, ids[i]))
    && (forall i, j | 0 <= i < j < |ids| :: t.rows[ids[i]].receivedAt <= t.rows[ids[j]].receivedAt)
    && (limit >= 0 ==> |ids| <= limit)
    && (forall id | id in t.rows && DueIn(t, now, id) && id !in ids ::
          |ids| == limit && forall i | 0 <= i < |ids| :: t.rows[ids[i]].receivedAt <= t.rows[id].receivedAt)
  }

  /** A mail whose key is new gets a row of its own that is due at once and stays due. */
  lemma StoredIsDue(t: Table, mail: Mail, now: Instant, later: Instant)
    requires WellFormed(t) && !HasKey(t, mail.key)
    ensures var r := Insert(t, mail, now);
            && DueIn(r, later, t.nextId) && Untried(r.rows[t.nextId], mail, now)
            && t.nextId !in t.rows && r.rows == t.rows[t.nextId := r.rows[t.nextId]]
  {
  }

  function SetInFlight(t: Table, ids: seq<nat>): (r: Table) {
    t.(rows := map id | id in t.rows ::
      if id in ids then t.rows[id].(state := InFlight) else t.rows[id])
  }

  /** The rows as they were before the UPDATE of `dequeue_batch`. */
  function Snapshots(t: Table, ids: seq<nat>): (items: seq<Row>)
    requires forall i | 0 <= i < |ids| :: ids[i] in t.rows
    ensures |items| == |ids|
    ensures forall i | 0 <= i < |ids| :: items[i] == t.rows[ids[i]]
  {
    seq(|ids|, i requires 0 <= i < |ids| => t.rows[ids[i]])
  }

  /** The three `mark_*` statements: `WHERE id=?`, whatever state the row is in. */
  function Put(t: Table, id: nat, row: Row): Table {
    if id in t.rows then t.(rows := t.rows[id := row]) else t
  }

  function MarkDelivered(t: Table, id: nat, now: Instant, messageId: Json.Value): Table {
    if id !in t.rows then t
    else Put(t, id, t.rows[id].(state := Delivered, deliveredAt := Some(Truncate(now)),
                                deliveredMessageId := messageId, lastError := None))
  }

  function MarkRetry(t: Table, id: nat, attempt: nat, at: Instant, error: Reason): Table {
    if id !in t.rows then t
    else Put(t, id, t.rows[id].(state := Pending, attemptCount := attempt,
                                nextAttemptAt := Some(at), lastError := Some(error)))
  }

  function MarkDeadLetter(t: Table, id: nat, reason: Reason): Table {
    if id !in t.rows then t
    else Put(t, id, t.rows[id].(state := DeadLetter, deadLetterReason := Some(reason),
                                lastError := Some(reason)))
  }

  function Requeued(row: Row): Row {
    if row.state.InFlight? then row.(state := Pending, nextAttemptAt := None) else row
  }

  function RequeueInFlight(t: Table): Table {
    t.(rows := map id | id in t.rows :: Requeued(t.rows[id]))
  }

  /** A row that was in flight when its worker died is due at once, with its attempts as they
      were; no other row changes. */
  lemma RequeuedIsDue(t: Table, id: nat, later: Instant)
    requires id in t.rows
    ensures var r := RequeueInFlight(t);
            && id in r.rows && r.rows[id].mail == t.rows[id].mail && r.rows[id].attemptCount == t.rows[id].attemptCount
            && (if t.rows[id].state.InFlight? then DueIn(r, later, id) else r.rows[id] == t.rows[id])
  {
  }

  /** A row put off until `at` is due from the first whole second that is not earlier. */
  lemma RetriedIsDue(t: Table, id: nat, attempt: nat, at: Instant, error: Reason, later: Instant)
    requires id in t.rows
    ensures DueIn(MarkRetry(t, id, attempt, at, error), later, id) <==> at <= Seconds(later) * MICROS_PER_SECOND
  {
  }

  predicate Prunable(row: Row, cutoff: Instant) {
    row.state.Delivered? && row.deliveredAt.Some? && row.deliveredAt.value < Truncate(cutoff)
  }

  function Prune(t: Table, cutoff: Instant): Table {
    t.(rows := map id | id in t.rows && !Prunable(t.rows[id], cutoff) :: t.rows[id])
  }

  function InFlightIds(t: Table): (ids: set<nat>)
    ensures forall id :: id in ids <==> id in t.rows && t.rows[id].state.InFlight?
  {
    set id | id in t.rows && t.rows[id].state.InFlight?
  }

  /** A statement that inserts nothing and leaves ids and keys alone keeps both indexes. */
  lemma RewriteKeepsIndexes(t: Table, t': Table)
    requires WellFormed(t) && t'.nextId == t.nextId
    requires forall id | id in t'.rows ::
               id in t.rows && t'.rows[id].id == t.rows[id].id && t'.rows[id].mail == t.rows[id].mail
    ensures WellFormed(t')
  {
  }
}
