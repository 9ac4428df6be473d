/**
 * Runs of the outbox by many workers. A claim is a transaction in flight from the moment it
 * has locked its rows until it commits or aborts; while it holds a row, other claims skip
 * the row and settling calls wait for it. Each row keeps a ghost history of its claims and
 * settlements.
 */
module OutboxRuns {
  import opened Wrappers
  import opened Outbox

  /** A settlement notes the provider's message or the error class and, for a retry, when it is due. */
  datatype Event =
    | Claimed(worker: string, at: Time, expires: Option<Time>)
    | Settled(worker: string, at: Time, outcome: Status, note: string, due: Option<Time>)

  /** A claim in flight: for each row it holds, the reading at which it found it claimable. */
  datatype Flight = Flight(worker: string, lease: Option<int>, readings: map<Id, Time>)

  datatype World = World(rows: map<Id, Row>, clock: Time, flights: map<int, Flight>, history: map<Id, seq<Event>>)

  datatype Action =
    | SelectRows(txn: int, flight: Flight)
    | CommitClaim(txn: int)
    | AbortClaim(txn: int)
    | CompleteJob(id: Id, worker: Option<string>, message: string, at: Time)
    | FailJob(id: Id, worker: Option<string>, errorClass: string, retryable: Option<bool>, delay: int, at: Time)
    | Enqueue(id: Id, row: Row)
    | Wait

  ghost predicate Held(w: World, id: Id) {
    exists t :: t in w.flights && id in w.flights[t].readings
  }

  /** Rows are locked only when found claimable, unheld, at a reading of the clock. */
  ghost predicate Selects(w: World, txn: int, f: Flight, w': World) {
    && txn !in w.flights
    && (f.lease.Some? ==> 5 <= f.lease.value <= 300)
    && (forall id :: id in f.readings ==>
          && id in w.rows && !Held(w, id)
          && w.clock <= f.readings[id] <= w'.clock && Claimable(w.rows[id], f.readings[id]))
    && w' == w.(clock := w'.clock, flights := w.flights[txn := f])
  }

  ghost predicate CommitsRow(w: World, f: Flight, id: Id, w': World)
    requires id in f.readings && id in w.rows && id in w.history
  {
    && id in w'.rows && id in w'.history
    && exists at, from ::
         && from <= w'.clock && ClaimsRow(w.rows[id], f.worker, f.lease, f.readings[id], at, from, w'.rows[id])
         && w'.history[id] == w.history[id] + [Claimed(f.worker, at, w'.rows[id].leaseExpiresAt)]
  }

  ghost predicate Commits(w: World, txn: int, w': World) {
    && txn in w.flights
    && w.history.Keys == w.rows.Keys && w'.rows.Keys == w.rows.Keys && w'.history.Keys == w.history.Keys
    && w'.flights == w.flights - {txn}
    && forall id :: id in w.rows ==>
         if id in w.flights[txn].readings then CommitsRow(w, w.flights[txn], id, w')
         else w'.rows[id] == w.rows[id] && w'.history[id] == w.history[id]
  }

  function SettleRow(w: World, id: Id, row: Row, e: Event, clock: Time): World
    requires id in w.history
  {
    w.(rows := w.rows[id := row], history := w.history[id := w.history[id] + [e]], clock := clock)
  }

  /** A settling call waits for the row lock, then changes the row only for the worker that leases it. */
  ghost predicate Settles(w: World, id: Id, worker: Option<string>, row: Row, e: Event, w': World) {
    && w.clock <= e.at <= w'.clock
    && (if id in w.rows && id in w.history && LeasedTo(w.rows[id], worker)
        then !Held(w, id) && w' == SettleRow(w, id, row, e, w'.clock)
        else w' == w.(clock := w'.clock))
  }

  /** The event of a failure call: a retry is due after the delay, asked for or not. */
  function FailEvent(worker: Option<string>, errorClass: string, retries: bool, delay: int, at: Time): Event {
    Settled(worker.GetOr(""), at, if retries then RetryWait else PermanentFailure, errorClass,
            if retries then Some(at + delay) else None)
  }

  predicate Released(row: Row) { row.lockedAt.None? && row.lockedBy.None? && row.leaseExpiresAt.None? }

  /** A job as it is inserted: pending, never claimed. */
  predicate New(row: Row) {
    && row.status == Pending && row.attempts == 0 && row.maxAttempts > 0
    && Released(row) && row.sentAt.None?
  }

  function Blank(): Row { Row(Pending, 0, 1, 0, 0, None, None, None, None, None, None) }

  ghost predicate Next(w: World, a: Action, w': World) {
    && w.clock <= w'.clock
    && match a
       case SelectRows(txn, f) => Selects(w, txn, f, w')
       case CommitClaim(txn) => Commits(w, txn, w')
       case AbortClaim(txn) => w' == w.(clock := w'.clock, flights := w.flights - {txn})
       case CompleteJob(id, worker, message, at) =>
         Settles(w, id, worker, if id in w.rows then Completed(w.rows[id], at, message) else Blank(),
                 Settled(worker.GetOr(""), at, Sent, message, None), w')
       case FailJob(id, worker, errorClass, retryable, delay, at) =>
         var retries := id in w.rows && Retries(w.rows[id], retryable);
         && 0 <= delay <= 86400
         && Settles(w, id, worker,
                    if id in w.rows then Failed(w.rows[id], retries, at + delay, errorClass) else Blank(),
                    FailEvent(worker, errorClass, retries, delay, at), w')
       case Enqueue(id, row) =>
         && id !in w.rows && New(row)
         && w' == w.(rows := w.rows[id := row], clock := w'.clock, history := w.history[id := []])
       case Wait => w' == w.(clock := w'.clock)
  }

  // --------------------------------------------------------------- histories

  /** What may follow an event of one row. */
  predicate MayFollow(e: Event, e': Event) {
    match (e, e')
    case (Claimed(_, at, expires), Claimed(_, at', _)) => expires.Some? && expires.value <= at'
    case (Claimed(worker, at, _), Settled(worker', at', _, _, _)) => worker == worker' && at <= at'
    case (Settled(_, at, outcome, _, due), Claimed(_, at', _)) =>
      outcome == RetryWait && at <= at' && due.Some? && due.value <= at'
    case _ => false
  }

  ghost predicate Legal(h: seq<Event>) {
    && (h != [] ==> h[0].Claimed?)
    && (forall k :: 0 <= k < |h| && h[k].Claimed? && h[k].expires.Some? ==> h[k].at <= h[k].expires.value)
    && (forall k :: 0 <= k < |h| - 1 ==> MayFollow(h[k], h[k + 1]))
  }

  function ClaimCount(h: seq<Event>): nat {
    if h == [] then 0 else ClaimCount(h[..|h| - 1]) + if h[|h| - 1].Claimed? then 1 else 0
  }

  /** Twice the attempts that remain, and one for a lease: what every effective step lowers. */
  function Measure(row: Row): int {
    2 * (row.maxAttempts - row.attempts) + if row.status == Leased then 1 else 0
  }

  /** A settled row shows what was settled: message and time, or error class, and when a retry is due. */
  predicate Records(row: Row, e: Event) {
    && e.Settled? && e.outcome == row.status
    && match row.status
       case Sent =>
         row.sentAt == Some(e.at) && row.providerMessageId == Some(e.note) && row.lastErrorClass.None? && e.due.None?
       case PermanentFailure => row.lastErrorClass == Some(e.note) && e.due.None?
       case RetryWait =>
         row.lastErrorClass == Some(e.note) && e.due == Some(row.nextAttemptAt) && row.attempts < row.maxAttempts
       case _ => false
  }

  /** The row is what its history made of it. */
  ghost predicate Matches(row: Row, h: seq<Event>) {
    && 0 <= row.attempts <= row.maxAttempts
    && ClaimCount(h) == row.attempts
    && |h| + Measure(row) <= 2 * row.maxAttempts
    && (row.status != Leased ==> Released(row))
    && (row.status == Sent || row.sentAt.None?)
    && match row.status
       case Pending => h == [] && row.attempts < row.maxAttempts
       case Leased => h != [] && row.lockedBy.Some? && row.lockedAt.Some?
                      && h[|h| - 1] == Claimed(row.lockedBy.value, row.lockedAt.value, row.leaseExpiresAt)
       case _ => h != [] && Records(row, h[|h| - 1])
  }

  ghost predicate Before(h: seq<Event>, t: Time) { forall k :: 0 <= k < |h| ==> h[k].at <= t }

  ghost predicate RowInv(row: Row, h: seq<Event>, clock: Time) {
    Legal(h) && Matches(row, h) && Before(h, clock)
  }

  ghost predicate FlightInv(w: World, f: Flight) {
    && (f.lease.Some? ==> f.lease.value >= 0)
    && forall id :: id in f.readings ==>
         id in w.rows && id in w.history && f.readings[id] <= w.clock
         && Claimable(w.rows[id], f.readings[id]) && Before(w.history[id], f.readings[id])
  }

  ghost predicate Inv(w: World) {
    && w.history.Keys == w.rows.Keys
    && (forall id :: id in w.rows ==> RowInv(w.rows[id], w.history[id], w.clock))
    && (forall t :: t in w.flights ==> FlightInv(w, w.flights[t]))
    && (forall t, u :: t in w.flights && u in w.flights && t != u ==>
          w.flights[t].readings.Keys !! w.flights[u].readings.Keys)
  }

  ghost predicate Initial(w: World) {
    && w.flights == map[] && w.history.Keys == w.rows.Keys
    && forall id :: id in w.rows ==> New(w.rows[id]) && w.history[id] == []
  }

  lemma InitialInv(w: World)
    requires Initial(w)
    ensures Inv(w)
  {
  }

  predicate Extends(h: seq<Event>, e: Event) {
    && (if h == [] then e.Claimed? else MayFollow(h[|h| - 1], e))
    && (e.Claimed? && e.expires.Some? ==> e.at <= e.expires.value)
  }

  lemma Append(h: seq<Event>, e: Event)
    ensures ClaimCount(h + [e]) == ClaimCount(h) + if e.Claimed? then 1 else 0
    ensures Legal(h) && Extends(h, e) ==> Legal(h + [e])
  {
    assert (h + [e])[..|h|] == h;
  }

  lemma ClaimKeepsRow(a: Row, h: seq<Event>, worker: string, lease: Option<int>, readAt: Time, at: Time, from: Time,
                      b: Row, clock: Time)
    requires Legal(h) && Matches(a, h) && Before(h, readAt) && from <= clock
    requires ClaimsRow(a, worker, lease, readAt, at, from, b)
    requires lease.Some? ==> lease.value >= 0
    ensures RowInv(b, h + [Claimed(worker, at, b.leaseExpiresAt)], clock)
    ensures Measure(b) < Measure(a)
  {
    hide Legal, ClaimCount;
    Append(h, Claimed(worker, at, b.leaseExpiresAt));
  }

  /** The row after a settlement, which keeps the attempts and gives up the lease. */
  predicate SettledFrom(a: Row, b: Row, e: Event) {
    && b.attempts == a.attempts && b.maxAttempts == a.maxAttempts
    && Released(b) && (b.status == Sent || b.sentAt == a.sentAt) && Records(b, e)
  }

  lemma SettleKeepsRow(a: Row, h: seq<Event>, worker: string, b: Row, e: Event, clock: Time)
    requires RowInv(a, h, clock) && LeasedTo(a, Some(worker)) && Before(h, e.at) && e.at <= clock
    requires SettledFrom(a, b, e) && e.worker == worker
    ensures RowInv(b, h + [e], clock)
    ensures Measure(b) < Measure(a)
  {
    hide Legal, ClaimCount;
    Append(h, e);
  }

  lemma SettlesKeepsInv(w: World, id: Id, worker: Option<string>, row: Row, e: Event, w': World)
    requires Inv(w) && w.clock <= w'.clock && e.Settled? && Settles(w, id, worker, row, e, w')
    requires id in w.rows && LeasedTo(w.rows[id], worker) ==>
      SettledFrom(w.rows[id], row, e) && Some(e.worker) == worker
    ensures Inv(w')
    ensures forall i :: i in w.rows ==>
      i in w'.rows && (w'.rows[i] == w.rows[i] || Measure(w'.rows[i]) < Measure(w.rows[i]))
  {
    hide Legal, Matches, Claimable, Measure, SettledFrom;
    if id in w.rows && LeasedTo(w.rows[id], worker) {
      SettleKeepsRow(w.rows[id], w.history[id], worker.value, row, e, w'.clock);
      forall t | t in w'.flights ensures FlightInv(w', w'.flights[t]) {
        assert FlightInv(w, w.flights[t]);
        assert id !in w.flights[t].readings;
      }
    } else {
      forall t | t in w'.flights ensures FlightInv(w', w'.flights[t]) {
        assert FlightInv(w, w.flights[t]);
      }
    }
  }

  lemma CommitKeepsInv(w: World, txn: int, w': World)
    requires Inv(w) && w.clock <= w'.clock && Commits(w, txn, w')
    ensures Inv(w')
    ensures forall i :: i in w.rows ==>
      i in w'.rows && (w'.rows[i] == w.rows[i] || Measure(w'.rows[i]) < Measure(w.rows[i]))
  {
    hide Legal, Matches, Claimable, Measure, ClaimsRow;
    var f := w.flights[txn];
    assert FlightInv(w, f);
    forall id | id in w.rows
      ensures RowInv(w'.rows[id], w'.history[id], w'.clock)
      ensures (w'.rows[id] == w.rows[id] || Measure(w'.rows[id]) < Measure(w.rows[id]))
    {
      if id in f.readings {
        assert CommitsRow(w, f, id, w');
        var at, from :| from <= w'.clock
                        && ClaimsRow(w.rows[id], f.worker, f.lease, f.readings[id], at, from, w'.rows[id])
                        && w'.history[id] == w.history[id] + [Claimed(f.worker, at, w'.rows[id].leaseExpiresAt)];
        ClaimKeepsRow(w.rows[id], w.history[id], f.worker, f.lease, f.readings[id], at, from, w'.rows[id], w'.clock);
      } else {
        assert RowInv(w.rows[id], w.history[id], w.clock);
      }
    }
    forall t | t in w'.flights ensures FlightInv(w', w'.flights[t]) {
      assert FlightInv(w, w.flights[t]);
      assert w.flights[t].readings.Keys !! f.readings.Keys;
    }
  }

  lemma SelectKeepsInv(w: World, txn: int, f: Flight, w': World)
    requires Inv(w) && w.clock <= w'.clock && Selects(w, txn, f, w')
    ensures Inv(w')
  {
    hide Legal, Matches, Claimable;
    forall t | t in w'.flights ensures FlightInv(w', w'.flights[t]) {
      if t != txn {
        assert FlightInv(w, w.flights[t]);
      } else {
        forall id | id in f.readings ensures Before(w.history[id], f.readings[id]) {
          assert RowInv(w.rows[id], w.history[id], w.clock);
        }
      }
    }
    forall t | t in w.flights ensures w.flights[t].readings.Keys !! f.readings.Keys {
      forall id | id in f.readings ensures id !in w.flights[t].readings {
        assert !Held(w, id);
      }
    }
  }

  lemma SelectKeepsRows(w: World, txn: int, f: Flight, w': World)
    requires Selects(w, txn, f, w')
    ensures w'.rows == w.rows
  {
  }

  lemma WaitKeepsInv(w: World, w': World)
    requires Inv(w) && w.clock <= w'.clock && w'.rows == w.rows && w'.history == w.history
    requires w'.flights.Keys <= w.flights.Keys && forall t :: t in w'.flights ==> w'.flights[t] == w.flights[t]
    ensures Inv(w')
  {
    hide Legal, Matches, Claimable;
    forall t | t in w'.flights ensures FlightInv(w', w'.flights[t]) {
      assert FlightInv(w, w.flights[t]);
    }
  }

  lemma EnqueueKeepsInv(w: World, id: Id, row: Row, w': World)
    requires Inv(w) && id !in w.rows && New(row) && w.clock <= w'.clock
    requires w' == w.(rows := w.rows[id := row], clock := w'.clock, history := w.history[id := []])
    ensures Inv(w') && forall i :: i in w.rows ==> i in w'.rows && w'.rows[i] == w.rows[i]
  {
    hide Claimable;
    forall t | t in w'.flights ensures FlightInv(w', w'.flights[t]) {
      assert FlightInv(w, w.flights[t]);
    }
  }

  /** Every step keeps the invariant; and a step that changes a row lowers its measure. */
  lemma NextKeepsInv(w: World, a: Action, w': World)
    requires Inv(w) && Next(w, a, w')
    ensures Inv(w')
    ensures forall i :: i in w.rows ==>
      i in w'.rows && (w'.rows[i] == w.rows[i] || Measure(w'.rows[i]) < Measure(w.rows[i]))
  {
    hide Inv, Selects, Commits, Settles, Measure, Matches, Legal, Claimable;
    match a
    case SelectRows(txn, f) =>
      SelectKeepsInv(w, txn, f, w');
      assert w'.rows == w.rows by { SelectKeepsRows(w, txn, f, w'); }
    case CommitClaim(txn) => CommitKeepsInv(w, txn, w');
    case AbortClaim(txn) => WaitKeepsInv(w, w');
    case CompleteJob(id, worker, message, at) =>
      SettlesKeepsInv(w, id, worker, if id in w.rows then Completed(w.rows[id], at, message) else Blank(),
                      Settled(worker.GetOr(""), at, Sent, message, None), w');
    case FailJob(id, worker, errorClass, retryable, delay, at) =>
      var retries := id in w.rows && Retries(w.rows[id], retryable);
      SettlesKeepsInv(w, id, worker,
                      if id in w.rows then Failed(w.rows[id], retries, at + delay, errorClass) else Blank(),
                      FailEvent(worker, errorClass, retries, delay, at), w');
    case Enqueue(id, row) => EnqueueKeepsInv(w, id, row, w');
    case Wait => WaitKeepsInv(w, w');
  }

  // -------------------------------------------------------------------- runs

  ghost predicate IsRun(worlds: seq<World>, actions: seq<Action>) {
    && |worlds| == |actions| + 1
    && Initial(worlds[0])
    && forall i :: 0 <= i < |actions| ==> Next(worlds[i], actions[i], worlds[i + 1])
  }

  lemma {:induction false} RunKeepsInv(worlds: seq<World>, actions: seq<Action>, i: nat)
    requires IsRun(worlds, actions) && i < |worlds|
    ensures Inv(worlds[i])
  {
    hide Inv, Next, Initial;
    if i == 0 {
      InitialInv(worlds[0]);
    } else {
      RunKeepsInv(worlds, actions, i - 1);
      assert Next(worlds[i - 1], actions[i - 1], worlds[i]);
      NextKeepsInv(worlds[i - 1], actions[i - 1], worlds[i]);
    }
  }

  lemma {:induction false} LegalIsOrdered(h: seq<Event>, i: nat, j: nat)
    requires Legal(h) && i <= j < |h|
    ensures h[i].at <= h[j].at
  {
    if i < j {
      LegalIsOrdered(h, i, j - 1);
      assert MayFollow(h[j - 1], h[j]);
    }
  }

  /**
   * In every run: a later claim of a row comes at or after the earlier lease ran out, or after that very
   * lease was settled for a retry.
   */
  lemma LeaseExclusion(worlds: seq<World>, actions: seq<Action>, n: nat, id: Id, i: nat, j: nat)
    requires IsRun(worlds, actions) && n < |worlds| && id in worlds[n].rows && id in worlds[n].history
    requires var h := worlds[n].history[id]; i < j < |h| && h[i].Claimed? && h[j].Claimed?
    ensures var h := worlds[n].history[id];
      || (h[i].expires.Some? && h[i].expires.value <= h[j].at)
      || (&& i + 1 < j && h[i + 1].Settled? && h[i + 1].worker == h[i].worker && h[i + 1].outcome == RetryWait
          && h[i + 1].at <= h[j].at && h[i + 1].due.Some? && h[i + 1].due.value <= h[j].at)
  {
    RunKeepsInv(worlds, actions, n);
    hide Next, Initial, Matches;
    var h := worlds[n].history[id];
    assert RowInv(worlds[n].rows[id], h, worlds[n].clock);
    assert MayFollow(h[i], h[i + 1]);
    LegalIsOrdered(h, i + 1, j);
    if h[i + 1].Settled? {
      assert MayFollow(h[i + 1], h[i + 2]);
      LegalIsOrdered(h, i + 2, j);
    }
  }

  /** In every run: claims in flight at the same time hold different rows. */
  lemma BatchesAreDisjoint(worlds: seq<World>, actions: seq<Action>, n: nat, t: int, u: int)
    requires IsRun(worlds, actions) && n < |worlds|
    requires t in worlds[n].flights && u in worlds[n].flights && t != u
    ensures worlds[n].flights[t].readings.Keys !! worlds[n].flights[u].readings.Keys
  {
    hide Next, Initial, Matches, Legal;
    RunKeepsInv(worlds, actions, n);
  }

  /** In every run: each claim is settled at most once, and nothing follows a final outcome. */
  lemma SettledAtMostOnce(worlds: seq<World>, actions: seq<Action>, n: nat, id: Id, i: nat)
    requires IsRun(worlds, actions) && n < |worlds| && id in worlds[n].rows && id in worlds[n].history
    requires var h := worlds[n].history[id]; i < |h| && h[i].Settled?
    ensures var h := worlds[n].history[id];
      && i > 0 && h[i - 1].Claimed? && h[i - 1].worker == h[i].worker
      && (i + 1 < |h| ==> h[i].outcome == RetryWait && h[i + 1].Claimed?)
  {
    hide Next, Initial, Matches;
    RunKeepsInv(worlds, actions, n);
    var h := worlds[n].history[id];
    assert RowInv(worlds[n].rows[id], h, worlds[n].clock);
    if i > 0 {
      assert MayFollow(h[i - 1], h[i]);
    }
    if i + 1 < |h| {
      assert MayFollow(h[i], h[i + 1]);
    }
  }

  /** In every run: attempts stay within the maximum, and a row sees at most twice that many effective steps. */
  lemma StepsAreBounded(worlds: seq<World>, actions: seq<Action>, n: nat, id: Id)
    requires IsRun(worlds, actions) && n < |worlds| && id in worlds[n].rows && id in worlds[n].history
    ensures var row := worlds[n].rows[id];
      && 0 <= row.attempts <= row.maxAttempts && ClaimCount(worlds[n].history[id]) == row.attempts
      && |worlds[n].history[id]| <= 2 * row.maxAttempts
      && (row.status == RetryWait ==> row.attempts < row.maxAttempts)
  {
    hide Next, Initial, Legal;
    RunKeepsInv(worlds, actions, n);
    assert RowInv(worlds[n].rows[id], worlds[n].history[id], worlds[n].clock);
  }

  /** A late settlement by a worker whose row was reclaimed under another id changes nothing. */
  lemma LateSettlementIsIgnored(worlds: seq<World>, actions: seq<Action>, n: nat, id: Id, late: string)
    requires IsRun(worlds, actions) && n < |actions| && id in worlds[n].rows && id in worlds[n].history
    requires var h := worlds[n].history[id]; h != [] && h[|h| - 1].Claimed? && h[|h| - 1].worker != late
    requires match actions[n]
      case CompleteJob(i, worker, _, _) => i == id && worker == Some(late)
      case FailJob(i, worker, _, _, _, _) => i == id && worker == Some(late)
      case _ => false
    ensures worlds[n + 1].rows == worlds[n].rows && worlds[n + 1].history == worlds[n].history
  {
    hide Initial, Legal, Held;
    RunKeepsInv(worlds, actions, n);
    assert RowInv(worlds[n].rows[id], worlds[n].history[id], worlds[n].clock);
    assert Next(worlds[n], actions[n], worlds[n + 1]);
  }

  // ------------------------------------------------- calls as steps of a run

  /** When a claimed row was judged, locked and leased. */
  ghost function ReadingOf(a: Row, worker: string, lease: Option<int>, start: Time, end: Time, b: Row)
    : (r: (Time, Time, Time))
    requires ClaimedBetween(a, worker, lease, start, end, b)
    ensures start <= r.0 && r.2 <= end && ClaimsRow(a, worker, lease, r.0, r.1, r.2, b)
  {
    var readAt, at, from :| start <= readAt && from <= end && ClaimsRow(a, worker, lease, readAt, at, from, b);
    (readAt, at, from)
  }

  /** What a claim call has done to its rows, with a reading that makes each of them claimable. */
  ghost predicate Called(w: World, worker: string, lease: Option<int>, batch: seq<Id>, rows': map<Id, Row>,
                         clock': Time)
  {
    && (lease.Some? ==> 5 <= lease.value <= 300) && w.clock <= clock'
    && rows'.Keys == w.rows.Keys && (forall i :: i in w.rows && i !in batch ==> rows'[i] == w.rows[i])
    && forall i :: i in batch ==>
         i in w.rows && !Held(w, i) && ClaimedBetween(w.rows[i], worker, lease, w.clock, clock', rows'[i])
  }

  ghost function Reading(a: Row, worker: string, lease: Option<int>, from: Time, to: Time, b: Row): (readAt: Time)
    requires ClaimedBetween(a, worker, lease, from, to, b)
    ensures from <= readAt <= to && Claimable(a, readAt)
  {
    ReadingOf(a, worker, lease, from, to, b).0
  }

  ghost function ReadingsOf(w: World, worker: string, lease: Option<int>, batch: seq<Id>, rows': map<Id, Row>,
                            clock': Time)
    : (readings: map<Id, Time>)
    requires Called(w, worker, lease, batch, rows', clock')
    ensures readings.Keys == set i | i in batch
    ensures forall i :: i in readings ==> w.clock <= readings[i] <= clock' && Claimable(w.rows[i], readings[i])
  {
    hide Claimable, ClaimedBetween, Held;
    map i | i in batch :: Reading(w.rows[i], worker, lease, w.clock, clock', rows'[i])
  }

  ghost function HistoryAfter(w: World, worker: string, lease: Option<int>, batch: seq<Id>, rows': map<Id, Row>,
                              clock': Time)
    : (history: map<Id, seq<Event>>)
    requires w.history.Keys == w.rows.Keys && Called(w, worker, lease, batch, rows', clock')
    ensures history.Keys == w.rows.Keys
    ensures forall i :: i in w.rows && i !in batch ==> history[i] == w.history[i]
  {
    hide Held;
    map i | i in w.rows :: if i in batch then
      var at := ReadingOf(w.rows[i], worker, lease, w.clock, clock', rows'[i]).1;
      w.history[i] + [Claimed(worker, at, rows'[i].leaseExpiresAt)]
    else w.history[i]
  }

  lemma ClaimedRowCommits(w: World, worker: string, lease: Option<int>, batch: seq<Id>, rows': map<Id, Row>,
                          clock': Time, mid: World, f: Flight, end: World, i: Id)
    requires w.history.Keys == w.rows.Keys && Called(w, worker, lease, batch, rows', clock') && i in batch
    requires f == Flight(worker, lease, ReadingsOf(w, worker, lease, batch, rows', clock'))
    requires mid.rows == w.rows && mid.history == w.history && end.rows == rows' && end.clock == clock'
    requires end.history == HistoryAfter(w, worker, lease, batch, rows', clock')
    ensures CommitsRow(mid, f, i, end)
  {
    hide Held;
    var r := ReadingOf(w.rows[i], worker, lease, w.clock, clock', rows'[i]);
    assert ClaimsRow(w.rows[i], worker, lease, f.readings[i], r.1, r.2, rows'[i]);
  }

  /** What a claim call does when it skips the held rows is a selection followed by its commit. */
  lemma ClaimCallIsTwoSteps(w: World, txn: int, worker: string, lease: Option<int>, batch: seq<Id>,
                            rows': map<Id, Row>, clock': Time)
    returns (f: Flight, mid: World, end: World)
    requires w.history.Keys == w.rows.Keys && txn !in w.flights
    requires Called(w, worker, lease, batch, rows', clock')
    ensures Next(w, SelectRows(txn, f), mid) && Next(mid, CommitClaim(txn), end)
    ensures end.rows == rows' && end.clock == clock' && end.flights == w.flights
  {
    hide Claimable, Held, ClaimedBetween, CommitsRow;
    f := Flight(worker, lease, ReadingsOf(w, worker, lease, batch, rows', clock'));
    mid := w.(clock := clock', flights := w.flights[txn := f]);
    end := World(rows', clock', w.flights, HistoryAfter(w, worker, lease, batch, rows', clock'));
    assert mid.flights - {txn} == w.flights;
    forall i | i in f.readings ensures CommitsRow(mid, f, i, end) {
      ClaimedRowCommits(w, worker, lease, batch, rows', clock', mid, f, end, i);
    }
  }

  /** A settling call on a row that nobody holds is one step; with refused arguments it changes nothing. */
  lemma CompleteCallIsAStep(w: World, id: Id, worker: Option<string>, message: Option<string>, r: Result<bool, Error>,
                            rows': map<Id, Row>, clock': Time)
    returns (action: Action, end: World)
    requires w.history.Keys == w.rows.Keys && !Held(w, id) && w.clock <= clock'
    requires r == Ok(true) <==> ValidMessage(message) && id in w.rows && LeasedTo(w.rows[id], worker)
    requires rows' == if r == Ok(true) then w.rows[id := Completed(w.rows[id], clock', message.value)] else w.rows
    ensures Next(w, action, end) && end.rows == rows' && end.clock == clock' && end.flights == w.flights
    ensures action == if ValidMessage(message) then CompleteJob(id, worker, message.value, clock') else Wait
  {
    if ValidMessage(message) {
      action := CompleteJob(id, worker, message.value, clock');
      end := if r == Ok(true)
        then SettleRow(w, id, rows'[id], Settled(worker.value, clock', Sent, message.value, None), clock')
        else w.(clock := clock');
    } else {
      action, end := Wait, w.(clock := clock');
    }
  }

  lemma FailCallIsAStep(w: World, id: Id, worker: Option<string>, errorClass: Option<string>, retryable: Option<bool>,
                        delay: Option<int>, r: Result<bool, Error>, rows': map<Id, Row>, clock': Time)
    returns (action: Action, end: World)
    requires w.history.Keys == w.rows.Keys && !Held(w, id) && w.clock <= clock'
    requires r == Ok(true) <==>
      && ValidErrorClass(errorClass) && WithinOrNull(delay, 0, 86400) && id in w.rows && LeasedTo(w.rows[id], worker)
      && (Retries(w.rows[id], retryable) ==> delay.Some?)
    requires r == Ok(true) ==>
      rows' == w.rows[id := Failed(w.rows[id], Retries(w.rows[id], retryable), clock' + delay.GetOr(0),
                                   errorClass.value)]
    requires r != Ok(true) ==> rows' == w.rows
    ensures Next(w, action, end) && end.rows == rows' && end.clock == clock' && end.flights == w.flights
    ensures r == Ok(true) ==> action == FailJob(id, worker, errorClass.value, retryable, delay.GetOr(0), clock')
  {
    if r == Ok(true) {
      action := FailJob(id, worker, errorClass.value, retryable, delay.GetOr(0), clock');
      var e := FailEvent(worker, errorClass.value, Retries(w.rows[id], retryable), delay.GetOr(0), clock');
      end := SettleRow(w, id, rows'[id], e, clock');
    } else {
      action, end := Wait, w.(clock := clock');
    }
  }

  // --------------------------------------------------------------- stuck leases

  /** Leased on the last attempt, or without an expiry. */
  predicate Stuck(row: Row) {
    row.status == Leased && (row.attempts >= row.maxAttempts || row.leaseExpiresAt.None?)
  }

  predicate Settling(a: Action, id: Id, worker: Option<string>) {
    match a
    case CompleteJob(i, caller, _, _) => i == id && caller == worker
    case FailJob(i, caller, _, _, _, _) => i == id && caller == worker
    case _ => false
  }

  ghost predicate Path(worlds: seq<World>, actions: seq<Action>) {
    && |worlds| == |actions| + 1
    && forall i :: 0 <= i < |actions| ==> Next(worlds[i], actions[i], worlds[i + 1])
  }

  lemma StuckIsNotHeld(w: World, id: Id)
    requires Inv(w) && id in w.rows && Stuck(w.rows[id])
    ensures !Held(w, id)
  {
    hide RowInv;
    forall t | t in w.flights ensures id !in w.flights[t].readings {
      assert FlightInv(w, w.flights[t]);
    }
  }

  lemma StuckStep(w: World, a: Action, w': World, id: Id)
    requires Inv(w) && Next(w, a, w') && id in w.rows && Stuck(w.rows[id]) && !Settling(a, id, w.rows[id].lockedBy)
    ensures id in w'.rows && w'.rows[id] == w.rows[id]
  {
    StuckIsNotHeld(w, id);
    hide Inv, Claimable, CommitsRow, Stuck;
  }

  /** In every continuation in which the holder settles nothing, a stuck lease stays as it is and nobody selects it. */
  lemma {:induction false} StuckForever(worlds: seq<World>, actions: seq<Action>, n: nat, id: Id)
    requires Path(worlds, actions) && Inv(worlds[0]) && n < |worlds|
    requires id in worlds[0].rows && Stuck(worlds[0].rows[id])
    requires forall k :: 0 <= k < n ==> !Settling(actions[k], id, worlds[0].rows[id].lockedBy)
    ensures Inv(worlds[n]) && id in worlds[n].rows && worlds[n].rows[id] == worlds[0].rows[id] && !Held(worlds[n], id)
  {
    hide Inv, Next, Stuck, Settling, Held;
    if n == 0 {
      StuckIsNotHeld(worlds[0], id);
    } else {
      StuckForever(worlds, actions, n - 1, id);
      assert Next(worlds[n - 1], actions[n - 1], worlds[n]);
      NextKeepsInv(worlds[n - 1], actions[n - 1], worlds[n]);
      StuckStep(worlds[n - 1], actions[n - 1], worlds[n], id);
      StuckIsNotHeld(worlds[n], id);
    }
  }

  /** The continuation claims the row once more although the holder settles nothing. */
  ghost predicate Reclaims(worlds: seq<World>, actions: seq<Action>, w: World, id: Id)
    requires id in w.rows
  {
    && Path(worlds, actions) && worlds[0] == w
    && (forall k :: 0 <= k < |actions| ==> !Settling(actions[k], id, w.rows[id].lockedBy))
    && id in worlds[|actions|].rows && worlds[|actions|].rows[id].attempts == w.rows[id].attempts + 1
  }

  ghost predicate Reclaimable(w: World, id: Id)
    requires id in w.rows
  {
    exists worlds: seq<World>, actions: seq<Action> :: Reclaims(worlds, actions, w, id)
  }

  lemma {:induction false} Above(s: set<int>) returns (t: int)
    ensures forall x :: x in s ==> x < t
  {
    t := 0;
    if s != {} {
      var x := Element(s);
      var u := Above(s - {x});
      t := if u > x then u else x + 1;
      assert s == s - {x} + {x};
    }
  }

  /** The row is free after at most one abort. */
  lemma Release(w: World, id: Id) returns (txn: int, a: Action, free: World)
    requires Inv(w)
    ensures Next(w, a, free) && !Held(free, id) && txn !in free.flights
    ensures free.rows == w.rows && free.history == w.history && free.clock == w.clock
    ensures a.AbortClaim? || a.Wait?
  {
    hide RowInv, FlightInv;
    if t :| t in w.flights && id in w.flights[t].readings {
      txn, a, free := t, AbortClaim(t), w.(flights := w.flights - {t});
    } else {
      txn := Above(w.flights.Keys);
      a, free := Wait, w;
    }
  }

  /** When a row that waits, or whose lease runs out, can be claimed. */
  function DueAt(row: Row): Time {
    if row.status == Leased then row.leaseExpiresAt.GetOr(0) else row.nextAttemptAt
  }

  lemma DueIsClaimable(w: World, id: Id, at: Time)
    requires Inv(w) && id in w.rows && DueAt(w.rows[id]) <= at
    requires w.rows[id].status in {Pending, RetryWait} || (w.rows[id].status == Leased && !Stuck(w.rows[id]))
    ensures Claimable(w.rows[id], at)
  {
    assert RowInv(w.rows[id], w.history[id], w.clock);
  }

  lemma DueIsReclaimable(w: World, id: Id)
    requires Inv(w) && id in w.rows
    requires w.rows[id].status in {Pending, RetryWait} || (w.rows[id].status == Leased && !Stuck(w.rows[id]))
    ensures Reclaimable(w, id)
  {
    var row := w.rows[id];
    var at := if DueAt(row) > w.clock then DueAt(row) else w.clock;
    DueIsClaimable(w, id, at);
    assert w.history.Keys == w.rows.Keys;
    hide Inv, Next, Held, Claimable, DueAt, Stuck;
    var txn, a, free := Release(w, id);
    var claimed := row.(status := Leased, attempts := row.attempts + 1, lockedAt := Some(at), lockedBy := Some("w"),
                        leaseExpiresAt := Some(at + 5));
    assert ClaimsRow(row, "w", Some(5), at, at, at, claimed);
    hide ClaimsRow;
    assert ClaimedBetween(row, "w", Some(5), free.clock, at, claimed);
    var f, mid, end := ClaimCallIsTwoSteps(free, txn, "w", Some(5), [id], w.rows[id := claimed], at);
    var worlds, actions := [w, free, mid, end], [a, SelectRows(txn, f), CommitClaim(txn)];
    assert Path(worlds, actions);
    assert Reclaims(worlds, actions, w, id);
  }

  /** In every run: a lease that its holder abandons is lost for good exactly when no attempt or no expiry is left. */
  lemma StuckLease(worlds: seq<World>, actions: seq<Action>, n: nat, id: Id)
    requires IsRun(worlds, actions) && n < |worlds| && id in worlds[n].rows && worlds[n].rows[id].status == Leased
    ensures var row := worlds[n].rows[id];
      !Reclaimable(worlds[n], id) <==> row.attempts >= row.maxAttempts || row.leaseExpiresAt.None?
  {
    RunKeepsInv(worlds, actions, n);
    var w := worlds[n];
    hide Inv, IsRun;
    if !Stuck(w.rows[id]) {
      DueIsReclaimable(w, id);
    } else if Reclaimable(w, id) {
      var more: seq<World>, acts: seq<Action> :| Reclaims(more, acts, w, id);
      StuckForever(more, acts, |acts|, id);
    }
  }

  /** In every run: a job that waits, for its first attempt or for a retry, can be claimed. */
  lemma WaitingJobIsReclaimable(worlds: seq<World>, actions: seq<Action>, n: nat, id: Id)
    requires IsRun(worlds, actions) && n < |worlds| && id in worlds[n].rows
    requires worlds[n].rows[id].status in {Pending, RetryWait}
    ensures Reclaimable(worlds[n], id)
  {
    RunKeepsInv(worlds, actions, n);
    hide Inv, IsRun;
    DueIsReclaimable(worlds[n], id);
  }

  // ------------------------------------------------------------ final outcomes

  predicate Final(row: Row) { row.status == Sent || row.status == PermanentFailure }

  lemma FinalStep(w: World, a: Action, w': World, id: Id)
    requires Inv(w) && Next(w, a, w') && id in w.rows && Final(w.rows[id])
    ensures id in w'.rows && w'.rows[id] == w.rows[id]
  {
    forall t | t in w.flights ensures id !in w.flights[t].readings {
      assert FlightInv(w, w.flights[t]);
    }
    hide Inv, Claimable, CommitsRow;
  }

  /** In every run: a job that was sent or has failed for good stays exactly as it is. */
  lemma {:induction false} FinalForever(worlds: seq<World>, actions: seq<Action>, n: nat, m: nat, id: Id)
    requires IsRun(worlds, actions) && n <= m < |worlds| && id in worlds[n].rows && Final(worlds[n].rows[id])
    ensures id in worlds[m].rows && worlds[m].rows[id] == worlds[n].rows[id]
  {
    hide Inv, Next, Final, Initial;
    if n < m {
      FinalForever(worlds, actions, n, m - 1, id);
      RunKeepsInv(worlds, actions, m - 1);
      assert Next(worlds[m - 1], actions[m - 1], worlds[m]);
      FinalStep(worlds[m - 1], actions[m - 1], worlds[m], id);
    }
  }

  /** In every run: a failure reported by the lease holder as not retryable, or on the last attempt, is final. */
  lemma UnretryableIsFinal(worlds: seq<World>, actions: seq<Action>, n: nat, m: nat, id: Id)
    requires IsRun(worlds, actions) && n < m < |worlds| && id in worlds[n].rows
    requires actions[n].FailJob? && actions[n].id == id
    requires worlds[n].rows[id].status == Leased && worlds[n].rows[id].lockedBy == actions[n].worker
    requires actions[n].retryable != Some(true) || worlds[n].rows[id].attempts >= worlds[n].rows[id].maxAttempts
    ensures id in worlds[m].rows && worlds[m].rows[id].status == PermanentFailure
    ensures worlds[m].rows[id].lastErrorClass == Some(actions[n].errorClass)
  {
    RunKeepsInv(worlds, actions, n);
    assert RowInv(worlds[n].rows[id], worlds[n].history[id], worlds[n].clock);
    assert Next(worlds[n], actions[n], worlds[n + 1]);
    assert worlds[n + 1].rows[id].status == PermanentFailure by {
      hide Inv, Held, RowInv;
    }
    hide Inv, IsRun, Next;
    FinalForever(worlds, actions, n + 1, m, id);
  }

  lemma HistoryStep(w: World, a: Action, w': World, id: Id)
    requires Inv(w) && Next(w, a, w') && id in w.history
    ensures id in w'.history && w.history[id] <= w'.history[id]
  {
    hide RowInv, FlightInv, Held, Claimable;
  }

  lemma {:induction false} HistoryGrows(worlds: seq<World>, actions: seq<Action>, n: nat, m: nat, id: Id)
    requires IsRun(worlds, actions) && n <= m < |worlds| && id in worlds[n].history
    ensures id in worlds[m].history && worlds[n].history[id] <= worlds[m].history[id]
  {
    hide Inv, Initial;
    if n < m {
      HistoryGrows(worlds, actions, n, m - 1, id);
      RunKeepsInv(worlds, actions, m - 1);
      HistoryStep(worlds[m - 1], actions[m - 1], worlds[m], id);
    }
  }

  /** In every run: no claim follows a retryable failure before its time plus its delay. */
  lemma RetryWaitsItsDelay(worlds: seq<World>, actions: seq<Action>, n: nat, m: nat, id: Id, j: nat)
    requires IsRun(worlds, actions) && n < m < |worlds| && id in worlds[n].rows
    requires actions[n].FailJob? && actions[n].id == id
    requires worlds[n].rows[id].status == Leased && worlds[n].rows[id].lockedBy == actions[n].worker
    requires actions[n].retryable == Some(true) && worlds[n].rows[id].attempts < worlds[n].rows[id].maxAttempts
    requires id in worlds[n].history && id in worlds[m].history
    requires |worlds[n].history[id]| <= j < |worlds[m].history[id]| && worlds[m].history[id][j].Claimed?
    ensures worlds[m].history[id][j].at >= actions[n].at + actions[n].delay
  {
    RunKeepsInv(worlds, actions, n);
    RunKeepsInv(worlds, actions, m);
    var i, h := |worlds[n].history[id]|, worlds[m].history[id];
    assert RowInv(worlds[n].rows[id], worlds[n].history[id], worlds[n].clock);
    assert RowInv(worlds[m].rows[id], h, worlds[m].clock);
    assert Next(worlds[n], actions[n], worlds[n + 1]);
    var e := FailEvent(actions[n].worker, actions[n].errorClass, true, actions[n].delay, actions[n].at);
    assert worlds[n + 1].history[id] == worlds[n].history[id] + [e] by {
      hide Inv, RowInv, Held;
    }
    HistoryGrows(worlds, actions, n + 1, m, id);
    hide Inv, IsRun, Next, Matches;
    assert h[i] == e;
    assert MayFollow(h[i], h[i + 1]);
    LegalIsOrdered(h, i + 1, j);
  }
}
