/**
 * What one lock section may do to the state of a WAF instance: relations between the view
 * when the lock is taken and the view when it is released.
 */
module Protocol {
  import opened Wrappers
  import opened Items
  import opened Snapshots
  import opened Render
  import opened Store
  import ReadBack

  datatype Answer = Selected(kind: Kind) | StaleIgnored | ConflictRejected | NoChange

  datatype Failure =
    | ActivationError
    | RollbackError
    | CandidateRefused
    | CandidateChanged
    | ProbeValueError(at: int)
    | DryRunInvalid
    | SnapshotRejected

  datatype Outcome = Returned(answer: Answer) | Raised(failure: Failure)

  /** _revision_decision. */
  function Decision(m: Metadata, selected: string, s: Snapshot): Option<Answer> {
    if m.kind != Authoritative || m.revision.None? then None
    else if s.revision < m.revision.value then Some(StaleIgnored)
    else if s.revision > m.revision.value then None
    else if m.state != Some(s.stateChecksum) then Some(ConflictRejected)
    else if m.file == Sha256(selected) then Some(NoChange)
    else None
  }

  /** The metadata holds a revision that a snapshot is compared with. */
  predicate Holds(m: Metadata) { m.kind == Authoritative && m.revision.Some? }

  /** Which answer belongs to which snapshot; every other snapshot, any newer one included, is acted on. */
  lemma DecisionByRevision(m: Metadata, selected: string, s: Snapshot)
    ensures var decision := Decision(m, selected, s);
      && (decision == Some(StaleIgnored) <==> Holds(m) && s.revision < m.revision.value)
      && (decision == Some(ConflictRejected) <==>
            Holds(m) && s.revision == m.revision.value && m.state != Some(s.stateChecksum))
      && (decision == Some(NoChange) <==>
            && Holds(m) && s.revision == m.revision.value && m.state == Some(s.stateChecksum)
            && m.file == Sha256(selected))
      && (decision.Some? ==> decision.value in {StaleIgnored, ConflictRejected, NoChange})
  {
  }

  /** max(items, key=cutoff): the first item whose block lasts longest. */
  function LatestItem(epoch: TimestampReader, items: seq<Item>): (r: Item)
    requires items != []
    ensures r in items
    ensures forall x :: x in items ==> Cutoff(epoch, x) <= Cutoff(epoch, r)
  {
    if |items| == 1 then items[0]
    else
      var rest := LatestItem(epoch, items[1..]);
      assert items == [items[0]] + items[1..];
      if Cutoff(epoch, items[0]) >= Cutoff(epoch, rest) then items[0] else rest
  }

  lemma {:induction false} LatestIsFirst(epoch: TimestampReader, items: seq<Item>) returns (i: nat)
    requires items != []
    ensures i < |items| && LatestItem(epoch, items) == items[i]
    ensures forall j :: 0 <= j < i ==> Cutoff(epoch, items[j]) < Cutoff(epoch, items[i])
    ensures forall j :: i < j < |items| ==> Cutoff(epoch, items[j]) <= Cutoff(epoch, items[i])
  {
    hide Cutoff;
    i := 0;
    if |items| > 1 {
      var k := LatestIsFirst(epoch, items[1..]);
      i := if Cutoff(epoch, items[0]) >= Cutoff(epoch, items[1..][k]) then 0 else k + 1;
      assert forall j :: 1 <= j < |items| ==> items[j] == items[1..][j - 1];
    }
  }

  /** The empty file is selected; either NGINX confirmed it or the transition was given up. */
  ghost predicate Emptied(a: View, r: Outcome, b: View) {
    && b.selected == EMPTY
    && b.disabled == a.disabled
    && a.confirmed <= b.confirmed <= a.confirmed + {EMPTY}
    && match r
       case Returned(_) => b.running == EMPTY && EMPTY in b.confirmed
       case Raised(failure) =>
         && failure == RollbackError && b.metadata == a.metadata
         && (b.running == a.running || b.running == EMPTY)
  }

  /** deactivate_empty. */
  ghost predicate Deactivates(a: View, kind: Kind, r: Outcome, b: View) {
    && Emptied(a, r, b)
    && (r.Returned? ==>
          && r.answer == Selected(kind)
          && b.metadata == EmptyMetadata(kind, b.metadata.selectedAt)
          && b.metadata.selectedAt.Some?)
  }

  /** The metadata commits the snapshot and the bytes it renders to. */
  ghost predicate Commits(epoch: TimestampReader, s: Snapshot, probe: Option<Probe>, m: Metadata) {
    && m.kind == Authoritative
    && Describes(epoch, s, m)
    && m.selectedAt.Some?
    && m.probe == probe
  }

  /** _activate_authoritative_empty. */
  ghost predicate ActivatesEmpty(epoch: TimestampReader, a: View, s: Snapshot, r: Outcome, b: View) {
    && Emptied(a, r, b)
    && (r.Returned? ==> r.answer == Selected(Authoritative) && Commits(epoch, s, None, b.metadata))
  }

  /** The file and metadata from before, and NGINX confirmed to serve that file again. */
  ghost predicate Restored(a: View, b: View) {
    && b.selected == a.selected && b.running == a.selected
    && b.metadata == a.metadata && b.disabled == a.disabled
  }

  /** The fallback: a confirmed empty file marked pending. */
  ghost predicate PendingEmptied(a: View, b: View) {
    && b.selected == EMPTY && b.running == EMPTY && EMPTY in b.confirmed
    && b.metadata == EmptyMetadata(PendingEmpty, b.metadata.selectedAt) && b.metadata.selectedAt.Some?
    && b.disabled == a.disabled
  }

  /** Reload and probe of the rendering selected in a, with the rollback when one of them fails. */
  ghost predicate Settles(until: real, a: View, stopped: Option<Failure>, b: View)
    requires a.previous.Some?
  {
    && b.disabled == a.disabled
    && a.confirmed <= b.confirmed <= a.confirmed + KnownFiles(a)
    && (b.running == a.running || b.running in KnownFiles(a))
    && match stopped
       case None => b == a.(running := a.selected, confirmed := b.confirmed) && a.selected in b.confirmed
       case Some(ActivationError) => Restored(a.(selected := a.previous.value), b) || PendingEmptied(a, b)
       case Some(RollbackError) => b.selected == EMPTY && b.metadata == a.metadata
       case Some(ProbeValueError(at)) =>
         && b == a.(running := a.selected)
         && at <= until.Floor && ReadBack.ProbeRule(a.selected, at).None?
       case Some(_) => false
  }

  /** The attempt to put a non-empty rendering in force: all of it, none of it, or a failure. */
  ghost predicate Transacts(epoch: TimestampReader, until: real, a: View, s: Snapshot, r: Outcome, b: View)
    requires s.items != []
  {
    var content := SnapshotContent(epoch, s);
    var latest := LatestItem(epoch, s.items);
    && b.disabled == a.disabled
    && a.confirmed <= b.confirmed <= a.confirmed + {content, a.selected, EMPTY}
    && b.running in {a.running, content, a.selected, EMPTY}
    && match r
       case Returned(answer) =>
         && answer == Selected(Authoritative)
         && b.selected == content && b.running == content && content in b.confirmed
         && b.previous == Some(a.selected)
         && Commits(epoch, s, Some(Probe(latest.sourceIp, latest.recommendationId)), b.metadata)
       case Raised(ActivationError) => b == a || Restored(a, b) || PendingEmptied(a, b)
       case Raised(RollbackError) => b.selected == EMPTY && b.metadata == a.metadata
       case Raised(CandidateRefused) => b == a
       case Raised(CandidateChanged) => b == a
       case Raised(ProbeValueError(at)) =>
         && b == a.(selected := content, running := content, previous := Some(a.selected))
         && at <= until.Floor && ReadBack.ProbeRule(content, at).None?
       case Raised(_) => false
  }

  lemma StoppedTransacts(epoch: TimestampReader, until: real, a: View, s: Snapshot, f: Failure, b: View)
    requires s.items != []
    requires Settles(until, a.(selected := SnapshotContent(epoch, s), previous := Some(a.selected)), Some(f), b)
    ensures Transacts(epoch, until, a, s, Raised(f), b)
  {
    hide SnapshotContent, LatestItem, ReadBack.ProbeRule;
  }

  /** Metadata asks for a probe of the file that may find no rule in force any more. */
  ghost predicate Lapses(m: Metadata, until: real, file: string) {
    m.kind == Authoritative && exists at :: at <= until.Floor && ReadBack.ProbeRule(file, at).None?
  }

  /**
   * A failure needs a mishap, and a single one leaves the old file and metadata in force, unless
   * they ask for a probe that has lapsed.
   */
  ghost predicate Blames(until: real, a: View, before: nat, stopped: Option<Failure>, b: View, after: nat) {
    && before <= after
    && (stopped in {Some(ActivationError), Some(RollbackError), Some(CandidateChanged)} ==> before < after)
    && (stopped == Some(ActivationError) && after == before + 1 && !Lapses(a.metadata, until, a.selected) ==>
          b == a || Restored(a, b))
  }

  /** The same from a state in which the rendering is selected. */
  ghost predicate BlamesSelected(until: real, a: View, before: nat, stopped: Option<Failure>, b: View, after: nat)
    requires a.previous.Some?
  {
    && before <= after
    && (stopped in {Some(ActivationError), Some(RollbackError)} ==> before < after)
    && (stopped == Some(ActivationError) && after == before + 1 && !Lapses(a.metadata, until, a.previous.value) ==>
          Restored(a.(selected := a.previous.value), b))
  }

  function FailureOf(r: Outcome): Option<Failure> {
    match r
    case Returned(_) => None
    case Raised(failure) => Some(failure)
  }

  lemma SelectedBlames(until: real, a: View, content: string, before: nat, between: nat, stopped: Option<Failure>,
                       b: View, after: nat)
    requires before <= between && stopped != Some(CandidateChanged)
    requires BlamesSelected(until, a.(selected := content, previous := Some(a.selected)), between, stopped, b, after)
    ensures Blames(until, a, before, stopped, b, after)
  {
    hide Lapses;
  }

  lemma NothingToBlame(until: real, a: View, before: nat, stopped: Option<Failure>, b: View, after: nat)
    requires before <= after && (stopped.Some? ==> before < after || stopped == Some(CandidateRefused))
    requires stopped == Some(ActivationError) ==> b == a
    ensures Blames(until, a, before, stopped, b, after)
  {
    hide Lapses;
  }

  /** Seconds that the latest block must still last for a probe: three timeouts, at least one. */
  function RequiredSeconds(timeout: real): int {
    var ceiling := -(-(timeout * 3.0)).Floor;
    if ceiling > 1 then ceiling else 1
  }

  /** The least whole number of seconds that is at least one and at least three timeouts. */
  lemma RequiredIsLeast(timeout: real, n: int)
    ensures RequiredSeconds(timeout) >= 1 && RequiredSeconds(timeout) as real >= timeout * 3.0
    ensures n >= 1 && n as real >= timeout * 3.0 ==> n >= RequiredSeconds(timeout)
  {
  }

  predicate LongEnough(epoch: TimestampReader, items: seq<Item>, clock: real, required: int)
    requires items != []
  {
    Cutoff(epoch, LatestItem(epoch, items)) as real - clock >= required as real
  }

  /** The section gets as far as trying to put a non-empty rendering in force. */
  predicate Attempts(epoch: TimestampReader, required: int, clock: real, a: View, s: Snapshot) {
    && !a.disabled
    && Decision(a.metadata, a.selected, s).None?
    && s.items != []
    && LongEnough(epoch, s.items, clock, required)
  }

  /** The rendering is validated, selected, confirmed or rolled back. */
  function Attempting(v: View, content: string): set<Point> {
    {Here(v)} + Confirming(v.(selected := content, previous := Some(v.selected)))
  }

  /** The points through which activate may pass. */
  function ActivationPoints(epoch: TimestampReader, required: int, clock: real, a: View, s: Snapshot): set<Point> {
    if Attempts(epoch, required, clock, a, s) then Attempting(a, SnapshotContent(epoch, s)) else Emptying(a)
  }

  lemma PassesEmptying(epoch: TimestampReader, required: int, clock: real, a: View, s: Snapshot)
    ensures Emptying(a) <= ActivationPoints(epoch, required, clock, a, s)
    ensures Here(a) in ActivationPoints(epoch, required, clock, a, s)
  {
    hide SnapshotContent, LatestItem, Attempts, EMPTY;
  }

  /** activate, whose margin is judged at the given clock and whose probe reads it no later than `until`. */
  ghost predicate Activates(epoch: TimestampReader, required: int, clock: real, until: real,
                            a: View, s: Snapshot, r: Outcome, b: View)
  {
    var decision := Decision(a.metadata, a.selected, s);
    if a.disabled then Deactivates(a, DisabledEmpty, r, b)
    else if decision.Some? then r == Returned(decision.value) && b == a
    else if s.items == [] then ActivatesEmpty(epoch, a, s, r, b)
    else if !LongEnough(epoch, s.items, clock, required) then Deactivates(a, PendingEmpty, r, b)
    else Transacts(epoch, until, a, s, r, b)
  }

  /** What activate answers, by revision, state and file alone, unless the latch is set. */
  lemma ActivatesByRevision(epoch: TimestampReader, required: int, clock: real, until: real,
                            a: View, s: Snapshot, r: Outcome, b: View)
    requires Activates(epoch, required, clock, until, a, s, r, b) && !a.disabled
    ensures r == Returned(StaleIgnored) <==> Holds(a.metadata) && s.revision < a.metadata.revision.value
    ensures r == Returned(ConflictRejected) <==>
      && Holds(a.metadata) && s.revision == a.metadata.revision.value
      && a.metadata.state != Some(s.stateChecksum)
    ensures r == Returned(NoChange) <==>
      && Holds(a.metadata) && s.revision == a.metadata.revision.value
      && a.metadata.state == Some(s.stateChecksum) && a.metadata.file == Sha256(a.selected)
    ensures r.Returned? && !r.answer.Selected? ==> b == a
  {
    hide SnapshotContent, LatestItem, LongEnough;
  }

  /** A snapshot that was put in force is not acted on again. */
  lemma ActivationIsIdempotent(epoch: TimestampReader, required: int, clock: real, until: real, a: View, s: Snapshot,
                               b: View, required': int, clock': real, until': real, r': Outcome, c: View)
    requires Activates(epoch, required, clock, until, a, s, Returned(Selected(Authoritative)), b)
    requires Activates(epoch, required', clock', until', b, s, r', c)
    ensures r' == Returned(NoChange) && c == b
  {
    hide LatestItem, LongEnough, Content;
    EmptyRendering(epoch, s);
  }

  /** A snapshot newer than the one in force is acted on: its rendering is tried whenever it would last. */
  lemma NewerIsTried(epoch: TimestampReader, required: int, clock: real, a: View, s: Snapshot)
    requires !a.disabled && s.items != [] && LongEnough(epoch, s.items, clock, required)
    requires Holds(a.metadata) ==> s.revision > a.metadata.revision.value
    ensures Attempts(epoch, required, clock, a, s)
  {
    hide LatestItem, LongEnough;
  }
}
