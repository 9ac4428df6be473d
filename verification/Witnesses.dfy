/** Concrete inputs for each property that fails: runs, a snapshot, a lease and a log. */
module Witnesses {
  import opened Wrappers
  import opened Text
  import opened Items
  import opened Snapshots
  import opened Render
  import opened Store
  import opened Protocol
  import opened Runs
  import Bridge
  import Follower
  import Outbox
  import OutboxRuns
  import ReadBack
  import ReadBackLaws

  const EPOCH: TimestampReader := (t: string) => Some(1_000_000)
  const EXPIRY := "1970-01-01T00:16:40.000Z"
  const ITEM := Item(1, 1, "0.0.0.0", PATH, EXPIRY)
  const UNSIGNED := Snapshot(SCHEMA_VERSION, POLICY_VERSION, 7, SCOPE, EXPIRY, Sha256(""), [ITEM])
  const SNAPSHOT: Snapshot := UNSIGNED.(stateChecksum := CanonicalStateChecksum(EPOCH, UNSIGNED))

  lemma ZeroAddress()
    ensures CanonicalIp("0.0.0.0")
  {
    IpRoundTrip(0);
    assert IpText(0) == "0.0.0.0";
  }

  lemma SnapshotIsValid()
    ensures Valid(EPOCH, SNAPSHOT)
    ensures Cutoff(EPOCH, ITEM) == 999 && LatestItem(EPOCH, SNAPSHOT.items) == ITEM
  {
    ZeroAddress();
    hide CanonicalIp;
    assert StateOf(EPOCH, SNAPSHOT) == StateOf(EPOCH, UNSIGNED);
  }

  /** A fresh, confirmed, empty instance that nobody has disabled. */
  function Idle(kind: Kind): View {
    View(EMPTY, Some(EMPTY), EmptyMetadata(kind, Some(1.0)), false, EMPTY, {EMPTY})
  }

  lemma NoRuleLeft()
    ensures ReadBack.ProbeRule(SnapshotContent(EPOCH, SNAPSHOT), 999).None?
  {
    SnapshotIsValid();
    hide CanonicalIp, Content, ReadBack.ProbeRule, StateOf;
    ReadBackLaws.ValidIsReadable(EPOCH, SNAPSHOT);
    ReadBackLaws.ProbeRuleReadsBack(EPOCH, SNAPSHOT.revision, SNAPSHOT.items, 999);
  }

  /**
   * Activation uses up the fifteen seconds that were required: the probe raises, and the block
   * stays selected under metadata that still says pending_empty.
   */
  lemma EscapeLosesTheName()
    ensures var step := ActivateStep(SNAPSHOT, 15, 984.0, 999.0, Raised(ProbeValueError(999)));
      var content := SnapshotContent(EPOCH, SNAPSHOT);
      var b := Idle(PendingEmpty).(selected := content, running := content);
      && IsRun(EPOCH, [Idle(PendingEmpty), b], [step])
      && SelectionNamed(Idle(PendingEmpty)) && !SelectionNamed(b)
      && b.selected != EMPTY && b.metadata.kind == PendingEmpty
  {
    SnapshotIsValid();
    NoRuleLeft();
    hide Valid, LatestItem, CanonicalIp, Content, Cutoff, ReadBack.ProbeRule;
    EmptyRendering(EPOCH, SNAPSHOT);
    var content := SnapshotContent(EPOCH, SNAPSHOT);
    var a := Idle(PendingEmpty);
    var b := a.(selected := content, running := content);
    var r := Raised(ProbeValueError(999));
    assert LongEnough(EPOCH, SNAPSHOT.items, 984.0, 15);
    assert Transacts(EPOCH, 999.0, a, SNAPSHOT, r, b);
    assert Takes(EPOCH, a, ActivateStep(SNAPSHOT, 15, 984.0, 999.0, r), b);
  }

  const STRANDING := ActivateStep(SNAPSHOT, 15, 0.0, 1.0, Raised(RollbackError))

  function Stranded(a: View): View { a.(running := SnapshotContent(EPOCH, SNAPSHOT)) }

  /** A reload that is not confirmed but takes effect, and a rollback that fails as well. */
  lemma RollbackStrands(a: View)
    requires a.selected == EMPTY && a.metadata.kind != Authoritative && !a.disabled
    ensures Takes(EPOCH, a, STRANDING, Stranded(a)) && SnapshotContent(EPOCH, SNAPSHOT) != EMPTY
  {
    SnapshotIsValid();
    hide Valid, LatestItem, CanonicalIp, Content, Cutoff;
    EmptyRendering(EPOCH, SNAPSHOT);
    assert LongEnough(EPOCH, SNAPSHOT.items, 0.0, 15);
    assert Transacts(EPOCH, 1.0, a, SNAPSHOT, Raised(RollbackError), Stranded(a));
  }

  /**
   * The two sections of one `enable` in enforce mode. The command swallows the rollback error
   * of its own reconciliation and reports the pending_empty on record, while NGINX serves the
   * block and, the worker being untouched, nobody stops it.
   */
  lemma EnableHidesABlock()
    ensures var latched := Idle(DisabledEmpty).(disabled := true);
      var cleared := Idle(PendingEmpty);
      && IsRun(EPOCH, [latched, cleared, Stranded(cleared)], [EnableStep(Returned(Selected(PendingEmpty))), STRANDING])
      && RecordServed(cleared) && !RecordServed(Stranded(cleared)) && Stranded(cleared).running != EMPTY
  {
    hide SnapshotContent, SNAPSHOT;
    var latched, cleared := Idle(DisabledEmpty).(disabled := true), Idle(PendingEmpty);
    RollbackStrands(cleared);
    assert Takes(EPOCH, latched, EnableStep(Returned(Selected(PendingEmpty))), cleared);
  }

  /**
   * The views of the run below: startup, enable, disable, a failing enable, the first enable's own
   * reconciliation, a failing disable.
   */
  function OverlappingControls(): seq<View> {
    var started := View(EMPTY, Some(EMPTY), EmptyMetadata(PendingEmpty, None), false, EMPTY, {EMPTY});
    var enabled := Idle(PendingEmpty);
    var disabled := Idle(DisabledEmpty).(disabled := true);
    var reopened := Idle(DisabledEmpty);
    var relatched := Stranded(reopened).(disabled := true);
    [started, enabled, disabled, reopened, Stranded(reopened), relatched, relatched]
  }

  const CONTROLS: seq<Step> := [
    EnableStep(Returned(Selected(PendingEmpty))), DisableStep(Returned(Selected(DisabledEmpty))),
    EnableStep(Raised(RollbackError)), STRANDING, DisableStep(Raised(RollbackError)),
    LatchedStep(Returned(Selected(DisabledEmpty)))]

  /** The sections that processes configured for enforce mode take. */
  predicate InEnforceMode(step: Step) {
    step.EnableStep? || step.DisableStep? || step.LatchedStep? || step.ActivateStep?
  }

  lemma FirstControls()
    ensures var views := OverlappingControls();
      && Takes(EPOCH, views[0], CONTROLS[0], views[1])
      && Takes(EPOCH, views[1], CONTROLS[1], views[2])
      && Takes(EPOCH, views[2], CONTROLS[2], views[3])
  {
    hide EMPTY, SnapshotContent, SNAPSHOT;
  }

  lemma FailedDisable(a: View)
    requires a.selected == EMPTY
    ensures Takes(EPOCH, a, DisableStep(Raised(RollbackError)), a.(disabled := true))
  {
    hide EMPTY;
  }

  lemma TrustedLatch(a: View)
    requires a.disabled && MatchesEmpty(a.metadata, a.selected, DisabledEmpty)
    ensures Takes(EPOCH, a, LatchedStep(Returned(Selected(DisabledEmpty))), a)
  {
    hide EMPTY;
  }

  lemma LastControls()
    ensures var views := OverlappingControls();
      && Takes(EPOCH, views[3], CONTROLS[3], views[4])
      && Takes(EPOCH, views[4], CONTROLS[4], views[5])
      && Takes(EPOCH, views[5], CONTROLS[5], views[6])
      && views[6].running != EMPTY
  {
    hide EMPTY, SnapshotContent, SNAPSHOT, STRANDING, Takes;
    var reopened := Idle(DisabledEmpty);
    var relatched := Stranded(reopened).(disabled := true);
    RollbackStrands(reopened);
    FailedDisable(Stranded(reopened));
    TrustedLatch(relatched);
  }

  /**
   * Four control commands after an enforce-mode startup: the confirmed disabled_empty of the
   * second survives the failures of the others, and the worker answers disabled_empty on the
   * strength of it, over a set latch, while NGINX serves the block.
   */
  lemma OldRecordFoolsTheLatch()
    ensures var views := OverlappingControls();
      && StartsUp(views[0].(metadata := EmptyMetadata(ModeEmpty, None)), Enforce, views[0])
      && IsRun(EPOCH, views, CONTROLS)
      && (forall k :: 0 <= k < |CONTROLS| ==> InEnforceMode(CONTROLS[k]))
      && AnswersEmpty(CONTROLS[5]) && views[6].disabled && views[6].running != EMPTY
  {
    hide EMPTY, SnapshotContent, SNAPSHOT, Takes;
    var views := OverlappingControls();
    assert |views| == 7 && |CONTROLS| == 6;
    FirstControls();
    LastControls();
    assert IsRun(EPOCH, views, CONTROLS);
  }

  /** An instance whose block was activated and confirmed. */
  function Enforcing(): View {
    var content := SnapshotContent(EPOCH, SNAPSHOT);
    var m := Metadata(Authoritative, Some(SNAPSHOT.revision), Some(SNAPSHOT.stateChecksum), Sha256(content),
                      Some(1.0), Some(Probe("0.0.0.0", 1)));
    View(content, Some(EMPTY), m, false, content, {EMPTY, content})
  }

  lemma HasABlock()
    ensures SnapshotContent(EPOCH, SNAPSHOT) != EMPTY
  {
    hide EMPTY, SnapshotContent;
    EmptyRendering(EPOCH, SNAPSHOT);
  }

  lemma DiesAfterFirstWrite(a: View)
    ensures Takes(EPOCH, a, KilledStep(DisableStep(Raised(RollbackError))), a.(disabled := true))
  {
    hide EMPTY;
  }

  /** A disable that dies after its first write leaves the latch set over the block of a healthy instance. */
  lemma KilledDisableLeavesABlock()
    ensures var a := Enforcing();
      var b := a.(disabled := true);
      && SoundMetadata(EPOCH, a) && SelectionNamed(a) && RecordServed(a) && LatchHolds(a)
      && IsRun(EPOCH, [a, b], [KilledStep(DisableStep(Raised(RollbackError)))])
      && !LatchHolds(b)
  {
    SnapshotIsValid();
    HasABlock();
    hide EMPTY, SnapshotContent, SNAPSHOT, Takes, Valid;
    var a := Enforcing();
    assert Describes(EPOCH, SNAPSHOT, a.metadata);
    DiesAfterFirstWrite(a);
  }

  // ------------------------------------------------------- an expiry before the epoch

  const LONG_AGO := "1969-12-31T23:59:00.000Z"
  const MIXED: TimestampReader := (t: string) => if t == LONG_AGO then Some(-60_000) else Some(1_000_000)
  const OLD_ITEM := Item(2, 2, "0.0.0.1", PATH, LONG_AGO)
  const TWO_UNSIGNED := Snapshot(SCHEMA_VERSION, POLICY_VERSION, 7, SCOPE, EXPIRY, Sha256(""), [ITEM, OLD_ITEM])
  const TWO: Snapshot := TWO_UNSIGNED.(stateChecksum := CanonicalStateChecksum(MIXED, TWO_UNSIGNED))

  lemma FirstAddress()
    ensures CanonicalIp("0.0.0.1")
  {
    IpRoundTrip(1);
    assert IpText(1) == "0.0.0.1";
  }

  lemma Cutoffs()
    ensures MIXED(EXPIRY) == Some(1_000_000) && MIXED(LONG_AGO) == Some(-60_000)
    ensures Cutoff(MIXED, ITEM) == 999 && Cutoff(MIXED, OLD_ITEM) == -61
  {
    assert EXPIRY[0..2] != LONG_AGO[0..2] || EXPIRY[3] != LONG_AGO[3];
  }

  lemma NoTwoClash()
    ensures ITEM.sourceIp != OLD_ITEM.sourceIp && !Clash(ITEM, OLD_ITEM)
  {
    assert ITEM.sourceIp[6] != OLD_ITEM.sourceIp[6];
  }

  lemma SameChecksum()
    ensures CanonicalStateChecksum(MIXED, TWO) == CanonicalStateChecksum(MIXED, TWO_UNSIGNED)
  {
    hide ITEM, OLD_ITEM, MIXED;
    assert StateOf(MIXED, TWO) == StateOf(MIXED, TWO_UNSIGNED);
  }

  lemma TwoIsValid()
    ensures Valid(MIXED, TWO) && Cutoff(MIXED, ITEM) == 999 && Cutoff(MIXED, OLD_ITEM) == -61
  {
    ZeroAddress();
    FirstAddress();
    Cutoffs();
    NoTwoClash();
    hide CanonicalIp, Cutoff, Clash, EXPIRY, LONG_AGO, MIXED, CanonicalStateChecksum;
    assert ValidItem(MIXED, ITEM) && ValidItem(MIXED, OLD_ITEM);
    hide ValidItem;
    assert TWO.items == [ITEM, OLD_ITEM];
    assert ValidItems(MIXED, TWO.items);
    assert CanonicalStateChecksum(MIXED, TWO) == CanonicalStateChecksum(MIXED, TWO_UNSIGNED) by {
      SameChecksum();
    }
  }

  /** Both items have expired at second 999, and yet the probe rule is the one that expired in 1969. */
  lemma NegativeCutoffMisleads()
    ensures Valid(MIXED, TWO) && forall x :: x in TWO.items ==> !ReadBackLaws.Live(MIXED, x, 999)
    ensures ReadBack.ProbeRule(SnapshotContent(MIXED, TWO), 999) == Some(ReadBack.Active("0.0.0.1", Some(2), 0))
  {
    TwoIsValid();
    hide CanonicalIp, Content, Cutoff, ReadBack.ProbeRule, StateOf;
    ReadBackLaws.ValidIsReadable(MIXED, TWO);
    ReadBackLaws.ProbeRuleReadsBack(MIXED, TWO.revision, TWO.items, 999);
  }

  // ------------------------------------------------------------ an abandoned lease

  const PENDING_ROW := Outbox.Row(Outbox.Pending, 0, 1, 0, 0, None, None, None, None, None, None)
  const LEASED_ROW: Outbox.Row :=
    PENDING_ROW.(status := Outbox.Leased, attempts := 1, lockedAt := Some(0), lockedBy := Some("a"),
                 leaseExpiresAt := Some(5))
  const CLAIM := OutboxRuns.Flight("a", Some(5), map[1 := 0])

  function Abandoned(): seq<OutboxRuns.World> {
    var created := OutboxRuns.World(map[1 := PENDING_ROW], 0, map[], map[1 := []]);
    var held := created.(flights := map[7 := CLAIM]);
    var leased := OutboxRuns.World(map[1 := LEASED_ROW], 0, map[], map[1 := [OutboxRuns.Claimed("a", 0, Some(5))]]);
    [created, held, leased, leased.(clock := 1000)]
  }

  lemma LeaseCommits()
    ensures OutboxRuns.Next(Abandoned()[1], OutboxRuns.CommitClaim(7), Abandoned()[2])
  {
    var held, leased := Abandoned()[1], Abandoned()[2];
    assert held.flights - {7} == leased.flights;
    assert Outbox.ClaimsRow(PENDING_ROW, "a", Some(5), 0, 0, 0, LEASED_ROW);
    assert held.history[1] + [OutboxRuns.Claimed("a", 0, Some(5))] == leased.history[1];
    assert OutboxRuns.CommitsRow(held, CLAIM, 1, leased);
  }

  /** A row with one attempt is claimed; long after the lease has run out nobody can ever get it. */
  lemma AbandonedLeaseIsLost()
    ensures var worlds := Abandoned();
      && OutboxRuns.IsRun(worlds, [OutboxRuns.SelectRows(7, CLAIM), OutboxRuns.CommitClaim(7), OutboxRuns.Wait])
      && worlds[3].rows[1] == LEASED_ROW && LEASED_ROW.leaseExpiresAt.value < worlds[3].clock
      && !OutboxRuns.Reclaimable(worlds[3], 1)
  {
    var worlds := Abandoned();
    var actions := [OutboxRuns.SelectRows(7, CLAIM), OutboxRuns.CommitClaim(7), OutboxRuns.Wait];
    assert OutboxRuns.Next(worlds[0], actions[0], worlds[1]);
    LeaseCommits();
    assert OutboxRuns.Next(worlds[2], actions[2], worlds[3]);
    hide OutboxRuns.Next;
    assert OutboxRuns.IsRun(worlds, actions);
    OutboxRuns.StuckLease(worlds, actions, 3, 1);
  }

  // ------------------------------------------------------ a log opened inside a line

  const TAIL := Bridge.Arrival("b\n", Bridge.Rejected, 0.0, Bridge.Raised, 0.0)

  /**
   * Followed from its end while it reads "a", the log goes on to "ab": the tail is consumed as a line
   * that it never held.
   */
  lemma TailIsConsumedAsALine()
    ensures "a" <= "ab\n" && Follower.Consumed("ab\n", |"a"|, 3, [TAIL])
    ensures Follower.CompleteLines("ab\n") == ["ab\n"] && Follower.Lines([TAIL]) == ["b\n"]
  {
    assert Follower.Lines([TAIL]) == ["b\n"];
    assert "ab\n"[1..3] == "b\n";
    Follower.FirstLine("ab\n", "");
    assert "ab\n" + "" == "ab\n";
    assert Follower.Concat(["b\n"]) == "b\n" + Follower.Concat([]);
  }
}
