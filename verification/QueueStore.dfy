/** The `Queue` class: the table behind it and the statements it runs. Timestamps are bound
    and compared as text here; the contracts speak of time. */
module QueueStore {
  import opened Wrappers
  import opened Timestamps
  import opened Table
  import SQL = Table
  import opened WorkerRules
  import Json

  // ---------------------------------------------------------------- SQL on text

  /** `state='pending' AND (next_attempt_at IS NULL OR next_attempt_at <= ?)`. */
  predicate SqlDue(row: Row, nowText: string) {
    row.state.Pending? && (row.nextAttemptAt.None? || TextLeq(RenderNaive(row.nextAttemptAt.value), nowText))
  }

  /** `state='delivered' AND delivered_at < ?`. */
  predicate SqlPrunable(row: Row, cutoffText: string) {
    row.state.Delivered? && row.deliveredAt.Some? && TextLess(RenderClock(row.deliveredAt.value), cutoffText)
  }

  /** `ORDER BY received_at`. */
  predicate SqlNotAfter(a: Row, b: Row) {
    TextLeq(RenderClock(a.receivedAt), RenderClock(b.receivedAt))
  }

  /** Clock readings are stored to the second. */
  predicate WholeSeconds(t: Table) {
    forall id | id in t.rows ::
      && Truncate(t.rows[id].receivedAt) == t.rows[id].receivedAt
      && (t.rows[id].deliveredAt.Some? ==> Truncate(t.rows[id].deliveredAt.value) == t.rows[id].deliveredAt.value)
  }

  predicate Within(t: Table, ids: seq<nat>) {
    forall i | 0 <= i < |ids| :: ids[i] in t.rows
  }

  /** The number of rows that stay in front of row `id` when sorting by `notAfter`. */
  function Place(t: Table, notAfter: (Row, Row) -> bool, ids: seq<nat>, id: nat): (k: nat)
    requires Within(t, ids) && id in t.rows
    ensures k <= |ids|
    ensures k > 0 ==> notAfter(t.rows[ids[k - 1]], t.rows[id])
    ensures forall i | k <= i < |ids| :: !notAfter(t.rows[ids[i]], t.rows[id])
  {
    if ids == [] || notAfter(t.rows[ids[|ids| - 1]], t.rows[id]) then |ids|
    else Place(t, notAfter, ids[..|ids| - 1], id)
  }

  function InsertAt(ids: seq<nat>, k: nat, id: nat): (r: seq<nat>)
    requires k <= |ids|
    ensures |r| == |ids| + 1
    ensures forall i | 0 <= i < k :: r[i] == ids[i]
    ensures r[k] == id
    ensures forall i | k < i < |r| :: r[i] == ids[i - 1]
  {
    ids[..k] + [id] + ids[k..]
  }

  /** The ids below `n` of the rows that are due, sorted by `notAfter`. */
  function SortedDue(t: Table, due: Row -> bool, notAfter: (Row, Row) -> bool, n: nat): (r: seq<nat>)
    ensures Within(t, r)
    ensures forall i | 0 <= i < |r| :: r[i] < n && due(t.rows[r[i]])
    ensures Distinct(r)
  {
    if n == 0 then []
    else
      var r := SortedDue(t, due, notAfter, n - 1);
      if n - 1 in t.rows && due(t.rows[n - 1]) then
        var k := Place(t, notAfter, r, n - 1);
        InsertDistinct(r, k, n - 1);
        InsertAt(r, k, n - 1)
      else r
  }

  lemma InsertDistinct(ids: seq<nat>, k: nat, id: nat)
    requires k <= |ids| && Distinct(ids) && id !in ids
    ensures Distinct(InsertAt(ids, k, id))
  {
  }

  /** The SELECT. A negative LIMIT is no limit. */
  function SelectBatch(t: Table, nowText: string, limit: int): (r: seq<nat>)
    ensures Within(t, r)
  {
    var all := SortedDue(t, row => SqlDue(row, nowText), SqlNotAfter, t.nextId);
    if 0 <= limit < |all| then all[..limit] else all
  }

  predicate Sorted(t: Table, ids: seq<nat>)
    requires Within(t, ids)
  {
    forall i, j | 0 <= i < j < |ids| :: t.rows[ids[i]].receivedAt <= t.rows[ids[j]].receivedAt
  }

  /** `notAfter` orders the rows by arrival. */
  ghost predicate OrdersByArrival(t: Table, notAfter: (Row, Row) -> bool) {
    forall a, b | a in t.rows && b in t.rows ::
      notAfter(t.rows[a], t.rows[b]) <==> t.rows[a].receivedAt <= t.rows[b].receivedAt
  }

  /** On whole seconds the text order of arrivals is their order in time. */
  lemma TextOrdersByArrival(t: Table)
    requires WholeSeconds(t)
    ensures OrdersByArrival(t, SqlNotAfter)
  {
    forall a, b | a in t.rows && b in t.rows
      ensures SqlNotAfter(t.rows[a], t.rows[b]) <==> t.rows[a].receivedAt <= t.rows[b].receivedAt
    {
      ClockTextIsTimeOrder(t.rows[a].receivedAt, t.rows[b].receivedAt);
    }
    hide RenderClock, TextLess;
  }

  lemma PlaceSplits(t: Table, notAfter: (Row, Row) -> bool, ids: seq<nat>, id: nat)
    requires OrdersByArrival(t, notAfter) && Within(t, ids) && id in t.rows && Sorted(t, ids)
    ensures var k := Place(t, notAfter, ids, id);
            && (forall i | 0 <= i < k :: t.rows[ids[i]].receivedAt <= t.rows[id].receivedAt)
            && (forall i | k <= i < |ids| :: t.rows[id].receivedAt < t.rows[ids[i]].receivedAt)
  {
    var k := Place(t, notAfter, ids, id);
    hide Place;
    forall i | 0 <= i < |ids|
      ensures if i < k then t.rows[ids[i]].receivedAt <= t.rows[id].receivedAt
              else t.rows[id].receivedAt < t.rows[ids[i]].receivedAt
    {
      if i < k {
        assert notAfter(t.rows[ids[k - 1]], t.rows[id]);
        assert t.rows[ids[k - 1]].receivedAt <= t.rows[id].receivedAt;
      } else {
        assert !notAfter(t.rows[ids[i]], t.rows[id]);
      }
    }
  }

  lemma InsertSorts(t: Table, notAfter: (Row, Row) -> bool, ids: seq<nat>, id: nat)
    requires OrdersByArrival(t, notAfter) && Within(t, ids) && id in t.rows && Sorted(t, ids)
    ensures var r := InsertAt(ids, Place(t, notAfter, ids, id), id); Within(t, r) && Sorted(t, r)
  {
    var k := Place(t, notAfter, ids, id);
    var r := InsertAt(ids, k, id);
    PlaceSplits(t, notAfter, ids, id);
    hide OrdersByArrival, InsertAt, Place;
  }

  lemma {:induction false} SortedDueIsSorted(t: Table, due: Row -> bool, notAfter: (Row, Row) -> bool, n: nat)
    requires OrdersByArrival(t, notAfter)
    ensures Sorted(t, SortedDue(t, due, notAfter, n))
  {
    hide OrdersByArrival, Sorted, InsertAt, Place, Distinct;
    if n == 0 {
      SortedEmpty(t);
    } else {
      SortedDueIsSorted(t, due, notAfter, n - 1);
      if n - 1 in t.rows && due(t.rows[n - 1]) {
        InsertSorts(t, notAfter, SortedDue(t, due, notAfter, n - 1), n - 1);
      }
    }
  }

  lemma SortedEmpty(t: Table)
    ensures Sorted(t, [])
  {
  }

  /** Every due row is there. */
  lemma {:induction false} SortedDueIsComplete(t: Table, due: Row -> bool, notAfter: (Row, Row) -> bool, n: nat, id: nat)
    requires id < n && id in t.rows && due(t.rows[id])
    ensures id in SortedDue(t, due, notAfter, n)
  {
    hide InsertAt, Place, Distinct, Within;
    var r := SortedDue(t, due, notAfter, n - 1);
    if id < n - 1 {
      SortedDueIsComplete(t, due, notAfter, n - 1, id);
    }
    if n - 1 in t.rows && due(t.rows[n - 1]) {
      InsertKeeps(r, Place(t, notAfter, r, n - 1), n - 1);
    }
  }

  lemma InsertKeeps(ids: seq<nat>, k: nat, id: nat)
    requires k <= |ids|
    ensures id in InsertAt(ids, k, id)
    ensures forall x | x in ids :: x in InsertAt(ids, k, id)
  {
  }

  /** The SELECT on text returns a batch of rows that are due in time. */
  lemma SelectIsBatch(t: Table, now: Instant, limit: int)
    requires WellFormed(t) && WholeSeconds(t)
    ensures IsBatch(t, now, limit, SelectBatch(t, RenderClock(now), limit))
  {
    var nowText := RenderClock(now);
    var due := (row: Row) => SqlDue(row, nowText);
    var all := SortedDue(t, due, SqlNotAfter, t.nextId);
    TextOrdersByArrival(t);
    SortedDueIsSorted(t, due, SqlNotAfter, t.nextId);
    forall id | id in t.rows
      ensures Due(t.rows[id], now) <==> id in all
    {
      DueIsTimeOrder(t.rows[id], now);
      hide RenderClock, SqlDue, Due, WholeSeconds;
      if due(t.rows[id]) {
        SortedDueIsComplete(t, due, SqlNotAfter, t.nextId, id);
      }
    }
    hide RenderClock, SortedDue, SqlDue, SqlNotAfter, Due, WholeSeconds, OrdersByArrival;
    FrontIsBatch(t, now, limit, all);
  }

  /** What the UPDATE leaves, and that the snapshots are of the selected rows. */
  lemma FetchedFacts(t: Table, now: Instant, limit: int, ids: seq<nat>, items: seq<Row>)
    requires WellFormed(t) && WholeSeconds(t) && IsBatch(t, now, limit, ids)
    requires Within(t, ids) && items == Snapshots(t, ids)
    ensures WellFormed(SetInFlight(t, ids)) && WholeSeconds(SetInFlight(t, ids))
    ensures ids == [] ==> SetInFlight(t, ids) == t
    ensures IdsOf(items) == ids && |ids| <= |t.rows|
    ensures forall i | 0 <= i < |items| :: items[i].id in t.rows && items[i] == t.rows[items[i].id]
  {
    DistinctFit(ids, t.rows.Keys);
    RewriteKeepsIndexes(t, SetInFlight(t, ids));
    hide IsBatch, Truncate;
  }

  lemma DueIsTimeOrder(row: Row, now: Instant)
    ensures SqlDue(row, RenderClock(now)) <==> Due(row, now)
  {
    if row.nextAttemptAt.Some? {
      DueTextIsTimeOrder(row.nextAttemptAt.value, now);
    }
    hide RenderClock, RenderNaive, TextLeq;
  }

  lemma FrontIsBatch(t: Table, now: Instant, limit: int, all: seq<nat>)
    requires Within(t, all) && Sorted(t, all) && Distinct(all)
    requires forall id | id in t.rows :: Due(t.rows[id], now) <==> id in all
    ensures IsBatch(t, now, limit, if 0 <= limit < |all| then all[..limit] else all)
  {
  }

  /** The DELETE on text removes the rows that are old enough in time. */
  lemma PrunableIsTimeOrder(t: Table, cutoff: Instant, id: nat)
    requires WholeSeconds(t) && id in t.rows
    ensures SqlPrunable(t.rows[id], RenderClock(cutoff)) <==> Prunable(t.rows[id], cutoff)
  {
    if t.rows[id].deliveredAt.Some? {
      ClockTextIsTimeOrder(t.rows[id].deliveredAt.value, cutoff);
    }
    hide RenderClock, TextLess;
  }

  // ---------------------------------------------------------------- the class

  /** `timedelta(days=days)` in microseconds. */
  function DaysSpan(days: int): int {
    days * 86_400 * MICROS_PER_SECOND
  }

  /** The cutoff is the same time of day, that many calendar days before. */
  lemma DaysSpanIsDays(now: Instant, days: int)
    requires 0 <= Truncate(now) - DaysSpan(days) < MAX_INSTANT
    ensures var (a, b) := (FromInstant(Truncate(now)), FromInstant(Truncate(now) - DaysSpan(days)));
            DayNumber(b) == DayNumber(a) - days && SameClock(a, b) && b.micro == 0
  {
    var t := Truncate(now);
    var c: Instant := t - DaysSpan(days);
    var (a, b) := (FromInstant(t), FromInstant(c));
    SecondsShift(t, c, days);
    ClockOrder(a, b);
    DayAndSecond(a);
    DayAndSecond(b);
    hide FromInstant, DayNumber, SecondOfDay;
    SameParts(DayNumber(a), SecondOfDay(a), DayNumber(b), SecondOfDay(b), days);
  }

  lemma DayAndSecond(d: DateTime)
    requires ValidDateTime(d)
    ensures ToSeconds(d) == DayNumber(d) * 86_400 + SecondOfDay(d) && 0 <= SecondOfDay(d) < 86_400
  {
  }

  lemma SameParts(a: int, s: int, b: int, t: int, days: int)
    requires 0 <= s < 86_400 && 0 <= t < 86_400 && b * 86_400 + t == a * 86_400 + s - days * 86_400
    ensures b == a - days && t == s
  {
  }

  lemma SecondsShift(t: Instant, c: Instant, days: int)
    requires c == t - DaysSpan(days)
    ensures Seconds(c) == Seconds(t) - days * 86_400
  {
    assert c == t - (days * 86_400) * MICROS_PER_SECOND;
  }

  class Queue {
    var table: Table

    ghost predicate Valid()
      reads this
    {
      WellFormed(table) && WholeSeconds(table)
    }

    constructor ()
      ensures Valid() && table == EMPTY
    {
      table := EMPTY;
    }

    /** The id of the row that has the key now, and whether this call made it. */
    method Enqueue(mail: Mail, now: Instant) returns (id: nat, created: bool)
      requires Valid()
      modifies this
      ensures Valid() && table == Insert(old(table), mail, now)
      ensures created <==> !HasKey(old(table), mail.key)
      ensures id in table.rows && table.rows[id].mail.key == mail.key
      ensures if created
              then
                && id !in old(table).rows && table.rows == old(table).rows[id := table.rows[id]]
                && Untried(table.rows[id], mail, now) && forall later: Instant :: DueIn(table, later, id)
              else table == old(table)
    {
      if exists k :: k in table.rows && table.rows[k].mail.key == mail.key {
        id :| id in table.rows && table.rows[id].mail.key == mail.key;
        created := false;
      } else {
        id, created := table.nextId, true;
        forall later: Instant
          ensures DueIn(Insert(table, mail, now), later, id)
        {
          StoredIsDue(table, mail, now, later);
        }
        table := Table(table.rows[id := NewRow(id, mail, now)], id + 1);
      }
    }

    /** Moves a batch of due rows to in_flight and returns them as they were before. */
    method DequeueBatch(limit: int, now: Instant) returns (items: seq<Row>)
      requires Valid()
      modifies this
      ensures Valid() && |items| <= |old(table).rows|
      ensures forall i | 0 <= i < |items| :: items[i].id in old(table).rows && items[i] == old(table).rows[items[i].id]
      ensures IsBatch(old(table), now, limit, IdsOf(items))
      ensures table == SetInFlight(old(table), IdsOf(items))
    {
      hide RenderClock, SelectBatch, SetInFlight, IsBatch, WellFormed, WholeSeconds, Distinct;
      var nowText := RenderClock(now);
      var ids := SelectBatch(table, nowText, limit);
      SelectIsBatch(table, now, limit);
      items := Snapshots(table, ids);
      FetchedFacts(table, now, limit, ids, items);
      if ids != [] {
        table := SetInFlight(table, ids);
      }
    }

    /** Fails, changing nothing, when SQLite cannot bind the message id. */
    method MarkDelivered(id: nat, messageId: Json.Value, now: Instant) returns (ok: bool)
      requires Valid()
      modifies this
      ensures Valid() && ok == Bindable(messageId)
      ensures table == if ok then SQL.MarkDelivered(old(table), id, now, messageId) else old(table)
    {
      ok := Bindable(messageId);
      if ok && id in table.rows {
        table := table.(rows := table.rows[id := table.rows[id].(
          state := Delivered, deliveredAt := Some(Truncate(now)), deliveredMessageId := messageId, lastError := None)]);
      }
    }

    method MarkRetry(id: nat, attempt: nat, at: Instant, error: Reason)
      requires Valid()
      modifies this
      ensures Valid() && table == SQL.MarkRetry(old(table), id, attempt, at, error)
    {
      if id in table.rows {
        table := table.(rows := table.rows[id := table.rows[id].(
          state := Pending, attemptCount := attempt, nextAttemptAt := Some(at), lastError := Some(error))]);
      }
    }

    method MarkDeadLetter(id: nat, reason: Reason)
      requires Valid()
      modifies this
      ensures Valid() && table == SQL.MarkDeadLetter(old(table), id, reason)
    {
      if id in table.rows {
        table := table.(rows := table.rows[id := table.rows[id].(
          state := DeadLetter, deadLetterReason := Some(reason), lastError := Some(reason))]);
      }
    }

    /** Returns the number of rows put back to pending; afterwards none is in flight. */
    method RequeueInFlight() returns (touched: nat)
      requires Valid()
      modifies this
      ensures Valid() && table == SQL.RequeueInFlight(old(table))
      ensures touched == |InFlightIds(old(table))| && InFlightIds(table) == {}
      ensures forall id, later: Instant | id in InFlightIds(old(table)) ::
                DueIn(table, later, id) && table.rows[id].attemptCount == old(table).rows[id].attemptCount
    {
      touched := |InFlightIds(table)|;
      table := table.(rows := map id | id in table.rows :: Requeued(table.rows[id]));
    }

    /** Deletes the delivered rows older than the cutoff; None when the date arithmetic
        leaves the calendar. */
    method PruneDelivered(days: int, now: Instant) returns (pruned: Option<nat>)
      requires Valid()
      modifies this
      ensures Valid()
      ensures pruned.None? <==> !(0 <= Truncate(now) - DaysSpan(days) < MAX_INSTANT)
      ensures pruned.None? ==> table == old(table)
      ensures pruned.Some? ==>
                && table == Prune(old(table), Truncate(now) - DaysSpan(days))
                && pruned.value == |old(table).rows| - |table.rows|
    {
      hide Truncate, DaysSpan, RenderClock, SqlPrunable, Prunable, WholeSeconds, WellFormed, Prune;
      var cutoff := Truncate(now) - DaysSpan(days);
      if !(0 <= cutoff < MAX_INSTANT) {
        return None;
      }
      var cutoffText := RenderClock(cutoff);
      var kept := map id | id in table.rows && !SqlPrunable(table.rows[id], cutoffText) :: table.rows[id];
      PruneOnText(table, cutoff, kept);
      FewerKeys(kept.Keys, table.rows.Keys);
      pruned := Some(|table.rows| - |kept|);
      table := table.(rows := kept);
    }
  }

  lemma PruneOnText(t: Table, cutoff: Instant, kept: map<nat, Row>)
    requires WholeSeconds(t) && WellFormed(t)
    requires kept == map id | id in t.rows && !SqlPrunable(t.rows[id], RenderClock(cutoff)) :: t.rows[id]
    ensures t.(rows := kept) == Prune(t, cutoff) && kept.Keys <= t.rows.Keys
    ensures WellFormed(t.(rows := kept)) && WholeSeconds(t.(rows := kept))
  {
    forall id | id in t.rows
      ensures SqlPrunable(t.rows[id], RenderClock(cutoff)) <==> Prunable(t.rows[id], cutoff)
    {
      PrunableIsTimeOrder(t, cutoff, id);
    }
    hide RenderClock, SqlPrunable, Prunable;
  }

  function IdsOf(items: seq<Row>): (ids: seq<nat>)
    ensures |ids| == |items| && forall i | 0 <= i < |items| :: ids[i] == items[i].id
  {
    seq(|items|, i requires 0 <= i < |items| => items[i].id)
  }

  lemma FewerKeys(a: set<nat>, b: set<nat>)
    requires a <= b
    ensures |a| <= |b|
  {
    if a != {} {
      var x :| x in a;
      FewerKeys(a - {x}, b - {x});
    }
  }

  lemma {:induction false} DistinctFit(ids: seq<nat>, keys: set<nat>)
    requires Distinct(ids) && forall i | 0 <= i < |ids| :: ids[i] in keys
    ensures |ids| <= |keys|
  {
    if ids != [] {
      var init, last := ids[..|ids| - 1], ids[|ids| - 1];
      DistinctFit(init, keys - {last});
    }
  }
}
