/** The lock sections of the control CLI, of the reconciler and of startup. */
module Controls {
  import opened Wrappers
  import Text
  import Items
  import opened Snapshots
  import opened Render
  import opened Store
  import opened Protocol
  import Activation
  import opened Runs

  /** prepare_startup_state. */
  method PrepareStartupState(store: CandidateStateStore, mode: Mode) returns (kind: Kind)
    requires store.Durable()
    modifies store
    ensures store.Durable()
    ensures Through(old(store.Now()), old(store.trace), store.trace, {Here(old(store.Now())), Here(store.Now())})
    ensures StartsUp(old(store.Now()), mode, store.Now())
    ensures kind == store.metadata.kind == StartupKind(store.disabled, mode)
  {
    if store.disabled {
      kind := DisabledEmpty;
    } else if mode == Off || mode == DryRun {
      kind := ModeEmpty;
    } else {
      kind := PendingEmpty;
    }
    store.SetEmptyState(kind);
  }

  // ------------------------------------------------------- the specification

  /** Others act, and then the section is taken. */
  ghost predicate Acts(epoch: Items.TimestampReader, a: View, step: Step, b: View) {
    exists before :: Reaches(epoch, a, before) && Takes(epoch, before, step, b)
  }

  /** How a reconciler is configured, and when: its margin, and its first and last reading of the clock. */
  datatype Setting = Setting(mode: Mode, required: int, clock: real, until: real)

  /** The section that acts on a snapshot. */
  function Acting(g: Setting, s: Snapshot, r: Outcome): Step {
    if g.mode == DryRun then DryRunStep(s, r) else ActivateStep(s, g.required, g.clock, g.until, r)
  }

  /** What reconcile does from the comparison of revisions on, which is made in view a. */
  ghost predicate Compares(epoch: Items.TimestampReader, g: Setting, a: View, s: Snapshot, r: Outcome, b: View) {
    match Decision(a.metadata, a.selected, s)
    case Some(answer) => r == Returned(answer) && b == a
    case None => Acts(epoch, a, Acting(g, s, r), b)
  }

  /** And from the fetch on. */
  ghost predicate Fetches(epoch: Items.TimestampReader, g: Setting, a: View, fetched: Option<Snapshot>, r: Outcome,
                          b: View)
  {
    exists compared :: Reaches(epoch, a, compared) && match fetched
      case None => r == Raised(SnapshotRejected) && b == compared
      case Some(s) => Compares(epoch, g, compared, s, r, b)
  }

  ghost predicate StartsReconciling(epoch: Items.TimestampReader, g: Setting, first: View, fetched: Option<Snapshot>,
                                    r: Outcome, b: View)
  {
    if g.mode == Off then Takes(epoch, first, OffStep(r), b)
    else if g.mode == Enforce && first.disabled then Takes(epoch, first, LatchedStep(r), b)
    else Fetches(epoch, g, first, fetched, r, b)
  }

  /** And altogether: the first section, if there is one, looks at the view `first`. */
  ghost predicate Reconciles(epoch: Items.TimestampReader, g: Setting, a: View, fetched: Option<Snapshot>, r: Outcome,
                             b: View)
  {
    exists first :: Reaches(epoch, a, first) && StartsReconciling(epoch, g, first, fetched, r, b)
  }

  /** The failures of the reconciler that enable swallows. */
  predicate Swallowed(f: Failure) { f in {SnapshotRejected, ActivationError, RollbackError} }

  /** What enable reports of a reconciliation, given the kind on disk when it looks. */
  function Report(outcome: Outcome, onDisk: Kind): Outcome {
    match outcome
    case Returned(Selected(Authoritative)) => outcome
    case Returned(Selected(ModeEmpty)) => outcome
    case Returned(_) => Returned(Selected(onDisk))
    case Raised(SnapshotRejected) => Returned(Selected(onDisk))
    case Raised(ActivationError) => Returned(Selected(onDisk))
    case Raised(RollbackError) => Returned(Selected(onDisk))
    case Raised(_) => outcome
  }

  /** What follows after enable has cleared the latch with answer r0. */
  ghost predicate Resumes(epoch: Items.TimestampReader, g: Option<Setting>, r0: Outcome, a: View,
                          fetched: Option<Snapshot>, r: Outcome, b: View)
  {
    if r0.Raised? || g.None? then r == r0 && b == a
    else exists outcome, after ::
      && Reconciles(epoch, g.value, a, fetched, outcome, after)
      && Reaches(epoch, after, b) && r == Report(outcome, b.metadata.kind)
  }

  /** enable: the latch is cleared and the empty file selected before anything else. */
  ghost predicate Enables(epoch: Items.TimestampReader, g: Option<Setting>, a: View, fetched: Option<Snapshot>,
                          r: Outcome, b: View)
  {
    exists r0, mid :: Takes(epoch, a, EnableStep(r0), mid) && Resumes(epoch, g, r0, mid, fetched, r, b)
  }

  lemma ActsReaches(epoch: Items.TimestampReader, a: View, step: Step, b: View)
    requires Acts(epoch, a, step, b)
    ensures Reaches(epoch, a, b)
  {
    hide Takes, Reaches;
    var before :| Reaches(epoch, a, before) && Takes(epoch, before, step, b);
    StepReaches(epoch, before, step, b);
    ReachesTransitive(epoch, a, before, b);
  }

  class Reconciler {
    const manager: Activation.ActivationManager
    const mode: Mode

    constructor (manager: Activation.ActivationManager, mode: Mode)
      ensures this.manager == manager && this.mode == mode
    {
      this.manager := manager;
      this.mode := mode;
    }

    /** The lock is free: other processes take sections; callers know only that some run leads here. */
    method Others()
      requires manager.Ready()
      modifies manager.store
      ensures manager.Ready() && old(manager.store.trace) <= manager.store.trace
      ensures Reaches(manager.store.epoch, old(manager.store.Now()), manager.store.Now())
    {
      StaysPut(manager.store.epoch, manager.store.Now());
    }

    method KeepEmpty(kind: Kind) returns (r: Outcome)
      requires manager.Ready() && kind != Authoritative
      modifies manager.store
      ensures manager.Ready()
      ensures Through(old(manager.store.Now()), old(manager.store.trace), manager.store.trace,
                      Emptying(old(manager.store.Now())))
      ensures KeepsEmpty(old(manager.store.Now()), kind, r, manager.store.Now())
      ensures r.Raised? ==> manager.store.mishaps >= old(manager.store.mishaps) + 2
    {
      if manager.store.EmptyStateMatches(kind) {
        return Returned(Selected(kind));
      }
      r := manager.DeactivateEmpty(kind);
    }

    method DryRunSection(s: Snapshot) returns (r: Outcome)
      requires manager.Ready() && Valid(manager.store.epoch, s)
      modifies manager.store
      ensures manager.Ready()
      ensures Through(old(manager.store.Now()), old(manager.store.trace), manager.store.trace,
                      CutPoints(manager.store.epoch, old(manager.store.Now()), DryRunStep(s, r)))
      ensures DryRuns(old(manager.store.Now()), s, r, manager.store.Now())
      ensures r.Returned? && r.answer.Selected? ==>
        SnapshotContent(manager.store.epoch, s) in manager.store.validated
      ensures r == Raised(DryRunInvalid) <==> manager.store.mishaps > old(manager.store.mishaps)
    {
      hide EMPTY, Through, Content, MatchesEmpty, ValidItems, SoundMetadata, CutPoints;
      var store := manager.store;
      ghost var a, start := store.Now(), store.trace;
      var decision := manager.RevisionDecision(s);
      if decision.Some? {
        r := Returned(decision.value);
        ThroughWrite(a, start, start);
        DryRunPoints(store.epoch, a, s, r);
        return;
      }
      var candidate := RenderCandidate(store.epoch, s.revision, s.items);
      r := DryRunCandidate(s, candidate.value);
      DryRunPoints(store.epoch, a, s, r);
    }

    function DryRunName(s: Snapshot, checksum: Digest): string {
      "candidate-dry-run-" + Text.IntText(s.revision) + "-" + manager.store.prefix12(checksum) + ".conf"
    }

    lemma DryRunPoints(epoch: Items.TimestampReader, a: View, s: Snapshot, r: Outcome)
      ensures CutPoints(epoch, a, DryRunStep(s, r))
              == if Decision(a.metadata, a.selected, s).Some? then {Here(a)}
                 else {Here(a), Point(SnapshotContent(epoch, s), a.running), Point(EMPTY, a.running)}
    {
      hide SnapshotContent, EMPTY;
    }

    /** The part of a dry run from writing the candidate on. */
    method DryRunCandidate(s: Snapshot, candidate: RenderedCandidate) returns (r: Outcome)
      requires manager.Ready()
      modifies manager.store
      ensures manager.Ready()
      ensures Through(old(manager.store.Now()), old(manager.store.trace), manager.store.trace,
                      {Here(old(manager.store.Now())), Point(candidate.content, old(manager.store.running)),
                       Point(EMPTY, old(manager.store.running))})
      ensures match r
        case Returned(answer) =>
          && answer == Selected(ModeEmpty)
          && manager.store.Now()
             == old(manager.store.Now()).(selected := EMPTY, previous := Some(old(manager.store.selected)),
                                          metadata := EmptyMetadata(ModeEmpty, None))
        case Raised(failure) =>
          failure in {CandidateRefused, DryRunInvalid} && manager.store.Now() == old(manager.store.Now())
      ensures r.Returned? ==> candidate.content in manager.store.validated
      ensures r.Returned? ==> |manager.store.candidates| <= 1
      ensures r == Raised(DryRunInvalid) <==> manager.store.mishaps > old(manager.store.mishaps)
      ensures r == Raised(CandidateRefused) <==>
        var name := DryRunName(s, candidate.checksum);
        || !manager.store.CandidateName(name)
        || (name in old(manager.store.candidates) && old(manager.store.candidates)[name] != candidate.content)
    {
      hide EMPTY, Through, MatchesEmpty, DryRunName, CandidateStateStore.Durable, CandidateStateStore.CandidateName;
      ghost var a, start := manager.store.Now(), manager.store.trace;
      ghost var points := {Here(a), Point(candidate.content, a.running), Point(EMPTY, a.running)};
      var written, valid := manager.WriteAndValidate(DryRunName(s, candidate.checksum), candidate.content);
      ghost var between := manager.store.trace;
      ThroughMore(a, start, between, {Here(a), Point(candidate.content, a.running)}, points);
      manager.store.TraceEndsNow();
      if !written {
        return Raised(CandidateRefused);
      }
      if !valid {
        return Raised(DryRunInvalid);
      }
      manager.store.SetEmptyState(ModeEmpty);
      ThroughBoth(a, start, between, a, points, manager.store.trace, {Here(a), Here(manager.store.Now())}, points);
      manager.store.PruneCandidates();
      return Returned(Selected(ModeEmpty));
    }

    function At(clock: real, until: real): Setting {
      Setting(mode, RequiredSeconds(manager.nginx.timeout), clock, until)
    }

    /** The sections after a successful fetch: compare, let others run, then act. */
    method ReconcileFetched(s: Snapshot, clock: real, until: real) returns (r: Outcome)
      requires manager.Ready() && mode != Off && Valid(manager.store.epoch, s)
      modifies manager.store
      ensures manager.Ready() && old(manager.store.trace) <= manager.store.trace
      ensures Compares(manager.store.epoch, At(clock, until), old(manager.store.Now()), s, r, manager.store.Now())
      ensures Reaches(manager.store.epoch, old(manager.store.Now()), manager.store.Now())
      ensures r.Returned? && r.answer.Selected? ==> manager.store.metadata.kind == r.answer.kind
      ensures r.Returned? && r.answer.Selected? ==>
        r.answer.kind in if mode == DryRun then {ModeEmpty} else {Authoritative, PendingEmpty, DisabledEmpty}
      ensures r == Returned(NoChange) ==> manager.store.selected == SnapshotContent(manager.store.epoch, s)
    {
      hide Valid, SnapshotContent, LatestItem, LongEnough, Reaches;
      var epoch := manager.store.epoch;
      ghost var start := manager.store.Now();
      var decision := manager.RevisionDecision(s);
      if decision.Some? {
        if decision.value == NoChange {
          NoChangeIsExact(epoch, start, s);
        }
        StaysPut(epoch, start);
        return Returned(decision.value);
      }
      Others();
      ghost var before := manager.store.Now();
      if mode == DryRun {
        r := DryRunSection(s);
      } else {
        r := manager.Activate(s, clock, until);
      }
      assert Takes(epoch, before, Acting(At(clock, until), s, r), manager.store.Now());
      if r == Returned(NoChange) {
        NoChangeIsExact(epoch, before, s);
      }
      ActsReaches(epoch, start, Acting(At(clock, until), s, r), manager.store.Now());
    }

    /** reconcile; the fetched snapshot, or None when the fetcher rejects it, arrives with no lock held. */
    method Reconcile(fetched: Option<Snapshot>, clock: real, until: real) returns (r: Outcome)
      requires manager.Ready() && (fetched.Some? ==> Valid(manager.store.epoch, fetched.value))
      modifies manager.store
      ensures manager.Ready() && old(manager.store.trace) <= manager.store.trace
      ensures Reconciles(manager.store.epoch, At(clock, until), old(manager.store.Now()), fetched, r,
                         manager.store.Now())
      ensures Reaches(manager.store.epoch, old(manager.store.Now()), manager.store.Now())
      ensures r.Returned? && r.answer.Selected? ==> manager.store.metadata.kind == r.answer.kind
      ensures r == Returned(NoChange) ==>
        fetched.Some? && manager.store.selected == SnapshotContent(manager.store.epoch, fetched.value)
      ensures mode == Off && r.Returned? ==> r == Returned(Selected(ModeEmpty)) && manager.store.selected == EMPTY
    {
      hide Valid, SnapshotContent, Activates, DryRuns, Reaches, Compares;
      var epoch := manager.store.epoch;
      ghost var g, start := At(clock, until), manager.store.Now();
      Others();
      ghost var first := manager.store.Now();
      if mode == Off {
        r := KeepEmpty(ModeEmpty);
        StepReaches(epoch, first, OffStep(r), manager.store.Now());
        ReachesTransitive(epoch, start, first, manager.store.Now());
        assert StartsReconciling(epoch, g, first, fetched, r, manager.store.Now());
        return;
      }
      if mode == Enforce && manager.store.disabled {
        r := KeepEmpty(DisabledEmpty);
        StepReaches(epoch, first, LatchedStep(r), manager.store.Now());
        ReachesTransitive(epoch, start, first, manager.store.Now());
        assert StartsReconciling(epoch, g, first, fetched, r, manager.store.Now());
        return;
      }
      Others();
      ghost var compared := manager.store.Now();
      ReachesTransitive(epoch, start, first, compared);
      if fetched.None? {
        r := Raised(SnapshotRejected);
      } else {
        r := ReconcileFetched(fetched.value, clock, until);
        ReachesTransitive(epoch, start, compared, manager.store.Now());
      }
      assert Fetches(epoch, g, first, fetched, r, manager.store.Now());
      assert StartsReconciling(epoch, g, first, fetched, r, manager.store.Now());
    }
  }

  class WafControls {
    const manager: Activation.ActivationManager

    constructor (manager: Activation.ActivationManager)
      ensures this.manager == manager
    {
      this.manager := manager;
    }

    /** disable: set the latch, then empty, in one lock section. */
    method Disable() returns (r: Outcome)
      requires manager.Ready()
      modifies manager.store
      ensures manager.Ready()
      ensures Through(Entry(old(manager.store.Now()), DisableStep(r)), old(manager.store.trace), manager.store.trace,
                      Emptying(old(manager.store.Now())))
      ensures Takes(manager.store.epoch, old(manager.store.Now()), DisableStep(r), manager.store.Now())
      ensures manager.store.disabled && manager.store.selected == EMPTY
      ensures r.Returned? ==> manager.store.running == EMPTY
      ensures r.Raised? ==> manager.store.mishaps >= old(manager.store.mishaps) + 2
    {
      hide Through, EMPTY;
      ghost var start, points := manager.store.trace, Emptying(manager.store.Now());
      manager.store.SetDisabled(true);
      ghost var a, between := manager.store.Now(), manager.store.trace;
      ThroughWrite(a, start, between);
      r := manager.DeactivateEmpty(DisabledEmpty);
      ThroughBoth(a, start, between, a, {Here(a)}, manager.store.trace, points, points);
    }

    method ClearLatch() returns (r: Outcome)
      requires manager.Ready()
      modifies manager.store
      ensures manager.Ready()
      ensures Through(Entry(old(manager.store.Now()), EnableStep(r)), old(manager.store.trace), manager.store.trace,
                      Emptying(old(manager.store.Now())))
      ensures Takes(manager.store.epoch, old(manager.store.Now()), EnableStep(r), manager.store.Now())
      ensures r.Raised? ==> manager.store.mishaps >= old(manager.store.mishaps) + 2
    {
      hide Through, EMPTY;
      ghost var start, points := manager.store.trace, Emptying(manager.store.Now());
      manager.store.SetDisabled(false);
      ghost var a, between := manager.store.Now(), manager.store.trace;
      ThroughWrite(a, start, between);
      r := manager.DeactivateEmpty(PendingEmpty);
      ThroughBoth(a, start, between, a, {Here(a)}, manager.store.trace, points, points);
    }

    /** The kind was on disk at some moment from the one view to the other at which the lock was free. */
    ghost predicate WasOnDisk(epoch: Items.TimestampReader, a: View, kind: Kind, b: View) {
      exists v :: Reaches(epoch, a, v) && Reaches(epoch, v, b) && v.metadata.kind == kind
    }

    /**
     * enable: clear the latch, empty, and reconcile when there is a reconciler; the kind it reports was on
     * disk, although others may have acted since.
     */
    method Enable(reconciler: Reconciler?, fetched: Option<Snapshot>, clock: real, until: real) returns (r: Outcome)
      requires manager.Ready() && (reconciler != null ==> reconciler.manager == manager)
      requires fetched.Some? ==> Valid(manager.store.epoch, fetched.value)
      modifies manager.store
      ensures manager.Ready() && old(manager.store.trace) <= manager.store.trace
      ensures Reaches(manager.store.epoch, old(manager.store.Now()), manager.store.Now())
      ensures Enables(manager.store.epoch, if reconciler == null then None else Some(reconciler.At(clock, until)),
                      old(manager.store.Now()), fetched, r, manager.store.Now())
      ensures r.Returned? ==> r.answer.Selected?
      ensures r.Returned? ==>
        WasOnDisk(manager.store.epoch, old(manager.store.Now()), r.answer.kind, manager.store.Now())
      ensures r.Raised? ==> r.failure == RollbackError || !Swallowed(r.failure)
    {
      hide Valid, Takes, Reaches, Reconciles;
      var epoch := manager.store.epoch;
      ghost var start := manager.store.Now();
      ghost var g := if reconciler == null then None else Some(reconciler.At(clock, until));
      r := ClearLatch();
      ghost var r0, cleared := r, manager.store.Now();
      StepReaches(epoch, start, EnableStep(r0), cleared);
      StaysPut(epoch, cleared);
      EnableAnswers(epoch, start, r0, cleared);
      if r.Raised? || reconciler == null {
        assert Resumes(epoch, g, r0, cleared, fetched, r, cleared);
        return;
      }
      var kind := PendingEmpty;
      var outcome := reconciler.Reconcile(fetched, clock, until);
      ghost var released := manager.store.Now();
      ReachesTransitive(epoch, start, cleared, released);
      reconciler.Others();
      ReachesTransitive(epoch, start, released, manager.store.Now());
      StaysPut(epoch, manager.store.Now());
      match outcome {
        case Returned(answer) =>
          if answer in {Selected(Authoritative), Selected(PendingEmpty), Selected(ModeEmpty)} {
            kind := answer.kind;
          }
        case Raised(failure) =>
          if !Swallowed(failure) {
            assert Resumes(epoch, g, r0, cleared, fetched, outcome, manager.store.Now());
            return outcome;
          }
      }
      if kind == PendingEmpty {
        kind := manager.store.metadata.kind;
      }
      assert Resumes(epoch, g, r0, cleared, fetched, Returned(Selected(kind)), manager.store.Now());
      return Returned(Selected(kind));
    }

    lemma EnableAnswers(epoch: Items.TimestampReader, a: View, r: Outcome, b: View)
      requires Takes(epoch, a, EnableStep(r), b)
      ensures r == Raised(RollbackError) || (r == Returned(Selected(PendingEmpty)) && b.metadata.kind == PendingEmpty)
      ensures !b.disabled && b.selected == EMPTY
    {
    }
  }
}
