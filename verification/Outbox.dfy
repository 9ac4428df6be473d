/** The notification outbox: rows leased to workers, claimed in batches and settled once. */
module Outbox {
  import opened Wrappers

  type Id = int

  /** Seconds; every clock_timestamp() is a new reading, never earlier than the last. */
  type Time = int

  datatype Status = Pending | Leased | RetryWait | Sent | PermanentFailure

  datatype Row = Row(
    status: Status,
    attempts: int,
    maxAttempts: int,
    nextAttemptAt: Time,
    createdAt: Time,
    lockedAt: Option<Time>,
    lockedBy: Option<string>,
    leaseExpiresAt: Option<Time>,
    sentAt: Option<Time>,
    providerMessageId: Option<string>,
    lastErrorClass: Option<string>)

  /** The WHERE clause of the claim; a NULL lease expiry compares as unknown. */
  predicate Claimable(row: Row, now: Time) {
    && row.attempts < row.maxAttempts
    && (|| (row.status in {Pending, RetryWait} && row.nextAttemptAt <= now)
        || (row.status == Leased && row.leaseExpiresAt.Some? && row.leaseExpiresAt.value <= now))
  }

  /** A claim: claimable at one reading, locked at a later one, leased from a third for exactly the lease. */
  ghost predicate ClaimsRow(a: Row, worker: string, lease: Option<int>, readAt: Time, at: Time, from: Time, b: Row) {
    && Claimable(a, readAt)
    && readAt <= at <= from
    && b == a.(status := Leased, attempts := a.attempts + 1, lockedAt := Some(at), lockedBy := Some(worker),
               leaseExpiresAt := if lease.Some? then Some(from + lease.value) else None)
  }

  ghost predicate ClaimedBetween(a: Row, worker: string, lease: Option<int>, start: Time, end: Time, b: Row) {
    exists readAt, at, from :: start <= readAt && from <= end && ClaimsRow(a, worker, lease, readAt, at, from, b)
  }

  /** Among the rows judged eligible are all that nobody holds and that were claimable from the start. */
  ghost predicate EligibleSince(rows: map<Id, Row>, locked: set<Id>, start: Time, eligible: set<Id>) {
    && eligible <= rows.Keys - locked
    && forall i :: i in rows && i !in locked && Claimable(rows[i], start) ==> i in eligible
  }

  predicate LeasedTo(row: Row, worker: Option<string>) {
    row.status == Leased && worker.Some? && row.lockedBy == worker
  }

  function Unlocked(row: Row, status: Status): Row {
    row.(status := status, lockedAt := None, lockedBy := None, leaseExpiresAt := None)
  }

  function Completed(row: Row, at: Time, message: string): Row {
    Unlocked(row, Sent).(sentAt := Some(at), providerMessageId := Some(message), lastErrorClass := None)
  }

  /** A failure is retried only when asked for, known to be so, and while attempts remain. */
  predicate Retries(row: Row, retryable: Option<bool>) {
    retryable == Some(true) && row.attempts < row.maxAttempts
  }

  function Failed(row: Row, retries: bool, nextAttemptAt: Time, errorClass: string): Row {
    if retries then Unlocked(row, RetryWait).(nextAttemptAt := nextAttemptAt, lastErrorClass := Some(errorClass))
    else Unlocked(row, PermanentFailure).(lastErrorClass := Some(errorClass))
  }

  // -------------------------------------------------------------- arguments

  predicate ValidWorker(worker: Option<string>) { worker.Some? && 1 <= |worker.value| <= 128 }

  /** NOT BETWEEN is unknown for NULL, so a NULL argument passes the guard. */
  predicate WithinOrNull(n: Option<int>, low: int, high: int) { n.Some? ==> low <= n.value <= high }

  predicate ValidMessage(message: Option<string>) { message.Some? && 1 <= |message.value| <= 256 }

  predicate ErrorChar(c: char) { 'a' <= c <= 'z' || '0' <= c <= '9' || c == '_' }

  predicate ValidErrorClass(s: Option<string>) {
    s.Some? && 1 <= |s.value| <= 64 && forall i :: 0 <= i < |s.value| ==> ErrorChar(s.value[i])
  }

  lemma ErrorChars(s: string)
    ensures (forall i :: 0 <= i < |s| ==> ErrorChar(s[i]))
            <==> !exists c :: c in s && !('a' <= c <= 'z' || '0' <= c <= '9' || c == '_')
  {
    if i :| 0 <= i < |s| && !ErrorChar(s[i]) {
      assert s[i] in s;
    }
  }

  datatype Error =
    | InvalidWorker | InvalidBatch | InvalidLease | InvalidMessage
    | InvalidErrorClass | InvalidDelay | NullNextAttempt

  /** ORDER BY next_attempt_at, created_at, id. */
  predicate Precedes(rows: map<Id, Row>, i: Id, j: Id)
    requires i in rows && j in rows
  {
    var a, b := rows[i], rows[j];
    || a.nextAttemptAt < b.nextAttemptAt
    || (a.nextAttemptAt == b.nextAttemptAt && a.createdAt < b.createdAt)
    || (a.nextAttemptAt == b.nextAttemptAt && a.createdAt == b.createdAt && i < j)
  }

  lemma {:induction false} FirstExists(rows: map<Id, Row>, ids: set<Id>) returns (first: Id)
    requires ids != {} && ids <= rows.Keys
    ensures first in ids && forall j :: j in ids && j != first ==> Precedes(rows, first, j)
  {
    var i := Element(ids);
    if ids == {i} {
      first := i;
    } else {
      var rest := ids - {i};
      assert ids == rest + {i};
      first := FirstExists(rows, rest);
      if Precedes(rows, i, first) {
        first := i;
      }
    }
  }

  /** In order, without repetition, and nothing eligible is passed over while there is room. */
  ghost predicate FirstOf(rows: map<Id, Row>, eligible: set<Id>, batch: seq<Id>, limit: Option<int>) {
    && (forall k :: 0 <= k < |batch| ==> batch[k] in eligible && batch[k] in rows)
    && (forall k, l :: 0 <= k < l < |batch| ==> Precedes(rows, batch[k], batch[l]) && batch[k] != batch[l])
    && (limit.Some? ==> |batch| <= limit.value)
    && (forall j :: j in eligible && j in rows && j !in batch ==>
          limit.Some? && |batch| == limit.value && forall k :: 0 <= k < |batch| ==> Precedes(rows, batch[k], j))
  }

  /** The row is due earlier, or as early and created earlier, or as early and as old with a smaller id. */
  predicate DueBefore(a: Row, i: Id, b: Row, j: Id) {
    && a.nextAttemptAt <= b.nextAttemptAt
    && (a.nextAttemptAt == b.nextAttemptAt ==> a.createdAt <= b.createdAt)
    && (a.nextAttemptAt == b.nextAttemptAt && a.createdAt == b.createdAt ==> i < j)
  }

  /** A batch lists its rows by due time, and passes over no row that is due before one of its own. */
  lemma BatchIsByDueTime(rows: map<Id, Row>, eligible: set<Id>, batch: seq<Id>, limit: Option<int>, k: nat, j: Id)
    requires FirstOf(rows, eligible, batch, limit) && k < |batch| && j in eligible && j in rows
    requires j !in batch || exists l :: k < l < |batch| && batch[l] == j
    ensures DueBefore(rows[batch[k]], batch[k], rows[j], j)
  {
  }

  class OutboxTable {
    var rows: map<Id, Row>
    var clock: Time

    constructor (rows: map<Id, Row>, clock: Time)
      ensures this.rows == rows && this.clock == clock
    {
      this.rows, this.clock := rows, clock;
    }

    /** clock_timestamp(). */
    method ClockTimestamp() returns (now: Time)
      modifies this`clock
      ensures old(clock) <= now == clock
    {
      var reading: Time := *;
      if reading > clock {
        clock := reading;
      }
      now := clock;
    }

    /** The scan: every row is judged at its own reading of the clock. */
    method Candidates(locked: set<Id>) returns (found: set<Id>, ghost readings: map<Id, Time>)
      modifies this`clock
      ensures old(clock) <= clock && found <= rows.Keys - locked && readings.Keys == rows.Keys
      ensures forall i :: i in rows && i !in locked ==>
        old(clock) <= readings[i] <= clock && (i in found <==> Claimable(rows[i], readings[i]))
    {
      found, readings := {}, map[];
      var todo := rows.Keys;
      while todo != {}
        invariant todo <= rows.Keys && readings.Keys == rows.Keys - todo && old(clock) <= clock
        invariant found <= readings.Keys - locked
        invariant forall i :: i in readings && i !in locked ==>
          old(clock) <= readings[i] <= clock && (i in found <==> Claimable(rows[i], readings[i]))
        decreases todo
      {
        ghost var some := Element(todo);
        assert some in todo;
        var i :| i in todo;
        var now := ClockTimestamp();
        if i !in locked && Claimable(rows[i], now) {
          found := found + {i};
        }
        readings := readings[i := now];
        todo := todo - {i};
      }
    }

    /** ORDER BY ... LIMIT over the rows found. */
    method FirstBatch(found: set<Id>, limit: Option<int>) returns (batch: seq<Id>)
      requires found <= rows.Keys && (limit.Some? ==> limit.value >= 0)
      ensures FirstOf(rows, found, batch, limit)
    {
      batch := [];
      var rest := found;
      while rest != {} && (limit.Some? ==> |batch| < limit.value)
        invariant rest <= found
        invariant forall i :: i in found ==> (i in rest <==> i !in batch)
        invariant forall k :: 0 <= k < |batch| ==> batch[k] in found && batch[k] !in rest
        invariant forall k, j :: 0 <= k < |batch| && j in rest ==> Precedes(rows, batch[k], j)
        invariant forall k, l :: 0 <= k < l < |batch| ==> Precedes(rows, batch[k], batch[l]) && batch[k] != batch[l]
        invariant limit.Some? ==> |batch| <= limit.value
        decreases rest
      {
        ghost var least := FirstExists(rows, rest);
        var first :| first in rest && forall j :: j in rest && j != first ==> Precedes(rows, first, j);
        batch := batch + [first];
        rest := rest - {first};
      }
    }

    /**
     * claim_notification_outbox_batch. `locked` are the rows that other transactions hold;
     * SKIP LOCKED passes over them. The result lists the claimed ids.
     */
    method ClaimBatch(worker: Option<string>, batchSize: Option<int>, lease: Option<int>, locked: set<Id>)
      returns (r: Result<seq<Id>, Error>)
      modifies this
      ensures old(clock) <= clock
      ensures r.Err? <==>
        || worker.None? || |worker.value| < 1 || |worker.value| > 128
        || (batchSize.Some? && (batchSize.value < 1 || batchSize.value > 100))
        || (lease.Some? && (lease.value < 5 || lease.value > 300))
      ensures r.Err? ==> rows == old(rows)
      ensures r.Ok? ==> rows.Keys == old(rows).Keys
      ensures r.Ok? ==> forall i :: i in rows && i !in r.value ==> rows[i] == old(rows)[i]
      ensures r.Ok? ==> forall i :: i in r.value ==>
        i in rows && i !in locked && ClaimedBetween(old(rows)[i], worker.value, lease, old(clock), clock, rows[i])
      ensures r.Ok? ==> exists eligible: set<Id> ::
        EligibleSince(old(rows), locked, old(clock), eligible) && FirstOf(old(rows), eligible, r.value, batchSize)
    {
      if !ValidWorker(worker) {
        return Err(InvalidWorker);
      }
      if !WithinOrNull(batchSize, 1, 100) {
        return Err(InvalidBatch);
      }
      if !WithinOrNull(lease, 5, 300) {
        return Err(InvalidLease);
      }
      var found, readings := Candidates(locked);
      var batch := FirstBatch(found, batchSize);
      ghost var start := old(clock);
      assert EligibleSince(rows, locked, start, found);
      UpdateClaimed(batch, worker.value, lease, readings, old(clock));
      return Ok(batch);
    }

    /** The UPDATE of a claim, row by row. */
    method UpdateClaimed(batch: seq<Id>, worker: string, lease: Option<int>, ghost readings: map<Id, Time>,
                         ghost since: Time)
      requires forall i :: i in batch ==>
        i in rows && i in readings && since <= readings[i] <= clock && Claimable(rows[i], readings[i])
      requires forall k, l :: 0 <= k < l < |batch| ==> batch[k] != batch[l]
      modifies this
      ensures old(clock) <= clock && rows.Keys == old(rows).Keys
      ensures forall i :: i in rows && i !in batch ==> rows[i] == old(rows)[i]
      ensures forall i :: i in batch ==> ClaimedBetween(old(rows)[i], worker, lease, since, clock, rows[i])
    {
      for n := 0 to |batch|
        invariant old(clock) <= clock && rows.Keys == old(rows).Keys
        invariant forall i :: i in rows && i !in batch[..n] ==> rows[i] == old(rows)[i]
        invariant forall i :: i in batch[..n] ==> ClaimedBetween(old(rows)[i], worker, lease, since, clock, rows[i])
      {
        var i := batch[n];
        var at := ClockTimestamp();
        var from := ClockTimestamp();
        var a := rows[i];
        var expires := if lease.Some? then Some(from + lease.value) else None;
        var b := a.(status := Leased, attempts := a.attempts + 1, lockedAt := Some(at), lockedBy := Some(worker),
                    leaseExpiresAt := expires);
        rows := rows[i := b];
        assert ClaimsRow(old(rows)[i], worker, lease, readings[i], at, from, rows[i]);
        assert batch[..n + 1] == batch[..n] + [i];
      }
      assert batch[..|batch|] == batch;
    }

    /** complete_notification_outbox_job: true exactly when the row is leased to this very worker. */
    method Complete(id: Id, worker: Option<string>, message: Option<string>) returns (r: Result<bool, Error>)
      modifies this
      ensures old(clock) <= clock
      ensures r.Err? <==> message.None? || |message.value| < 1 || |message.value| > 256
      ensures r == Ok(true) <==> ValidMessage(message) && id in old(rows) && LeasedTo(old(rows)[id], worker)
      ensures if r == Ok(true) then rows == old(rows)[id := Completed(old(rows)[id], clock, message.value)]
              else rows == old(rows)
    {
      if !ValidMessage(message) {
        return Err(InvalidMessage);
      }
      if id !in rows || !LeasedTo(rows[id], worker) {
        return Ok(false);
      }
      var at := ClockTimestamp();
      rows := rows[id := Completed(rows[id], at, message.value)];
      return Ok(true);
    }

    /** fail_notification_outbox_job: retried or final, again only for the worker that holds the lease. */
    method Fail(id: Id, worker: Option<string>, errorClass: Option<string>, retryable: Option<bool>, delay: Option<int>)
      returns (r: Result<bool, Error>)
      modifies this
      ensures old(clock) <= clock
      ensures r == Err(InvalidErrorClass) <==>
        || errorClass.None? || |errorClass.value| < 1 || |errorClass.value| > 64
        || exists c :: c in errorClass.value && !('a' <= c <= 'z' || '0' <= c <= '9' || c == '_')
      ensures r == Err(InvalidDelay) <==>
        ValidErrorClass(errorClass) && delay.Some? && (delay.value < 0 || delay.value > 86400)
      ensures r == Err(NullNextAttempt) <==>
        && ValidErrorClass(errorClass) && id in old(rows) && LeasedTo(old(rows)[id], worker)
        && Retries(old(rows)[id], retryable) && delay.None?
      ensures r == Ok(true) <==>
        && ValidErrorClass(errorClass) && WithinOrNull(delay, 0, 86400) && id in old(rows)
        && LeasedTo(old(rows)[id], worker)
        && (Retries(old(rows)[id], retryable) ==> delay.Some?)
      ensures r == Ok(true) ==>
        rows == old(rows)[id := Failed(old(rows)[id], Retries(old(rows)[id], retryable), clock + delay.GetOr(0),
                                       errorClass.value)]
      ensures r != Ok(true) ==> rows == old(rows)
    {
      if errorClass.Some? {
        ErrorChars(errorClass.value);
      }
      if !ValidErrorClass(errorClass) {
        return Err(InvalidErrorClass);
      }
      if !WithinOrNull(delay, 0, 86400) {
        return Err(InvalidDelay);
      }
      if id !in rows || !LeasedTo(rows[id], worker) {
        return Ok(false);
      }
      var row := rows[id];
      var at := ClockTimestamp();
      if Retries(row, retryable) && delay.None? {
        return Err(NullNextAttempt);
      }
      rows := rows[id := Failed(row, Retries(row, retryable), at + delay.GetOr(0), errorClass.value)];
      return Ok(true);
    }
  }
}
