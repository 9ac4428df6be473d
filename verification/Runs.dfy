/**
 * Runs: any number of control commands, reconcilers holding snapshots of any age, and
 * restarts, in any order, one lock section at a time and with any NGINX answers.
 */
module Runs {
  import opened Wrappers
  import opened Items
  import Text
  import opened Snapshots
  import opened Render
  import opened Store
  import opened Protocol
  import ReadBack
  import ReadBackLaws

  datatype Mode = Off | DryRun | Enforce

  datatype Step =
    | DisableStep(r: Outcome)
    | EnableStep(r: Outcome)
    | OffStep(r: Outcome)
    | LatchedStep(r: Outcome)
    | DryRunStep(s: Snapshot, r: Outcome)
    | ActivateStep(s: Snapshot, required: int, clock: real, until: real, r: Outcome)
    | StartupStep(mode: Mode)
    | KilledStep(section: Step)

  /** Answer from a state already empty and confirmed, or make it so. */
  ghost predicate KeepsEmpty(a: View, kind: Kind, r: Outcome, b: View) {
    if MatchesEmpty(a.metadata, a.selected, kind) then r == Returned(Selected(kind)) && b == a
    else Deactivates(a, kind, r, b)
  }

  /** The dry-run section: the candidate is only validated, the empty file selected without a reload. */
  ghost predicate DryRuns(a: View, s: Snapshot, r: Outcome, b: View) {
    var decision := Decision(a.metadata, a.selected, s);
    if decision.Some? then r == Returned(decision.value) && b == a
    else
      match r
      case Returned(answer) =>
        && answer == Selected(ModeEmpty)
        && b == a.(selected := EMPTY, previous := Some(a.selected), metadata := EmptyMetadata(ModeEmpty, None))
      case Raised(failure) => failure in {CandidateRefused, DryRunInvalid} && b == a
  }

  function StartupKind(disabled: bool, mode: Mode): Kind {
    if disabled then DisabledEmpty else if mode == Enforce then PendingEmpty else ModeEmpty
  }

  /** prepare_startup_state. */
  ghost predicate StartsUp(a: View, mode: Mode, b: View) {
    b == a.(selected := EMPTY, previous := Some(a.selected),
            metadata := EmptyMetadata(StartupKind(a.disabled, mode), None))
  }

  /** A section may be entered: its snapshot was validated, its latch was found set. */
  ghost predicate Enters(epoch: TimestampReader, a: View, section: Step) {
    match section
    case DryRunStep(s, _) => Valid(epoch, s)
    case ActivateStep(s, _, _, _, _) => Valid(epoch, s)
    case LatchedStep(_) => a.disabled
    case KilledStep(_) => false
    case _ => true
  }

  /** The view after the write of the latch, for the sections that begin with one. */
  function Entry(a: View, section: Step): View {
    match section
    case DisableStep(_) => a.(disabled := true)
    case EnableStep(_) => a.(disabled := false)
    case _ => a
  }

  /** The section puts a non-empty rendering into the active file, if only to validate it. */
  predicate Renders(epoch: TimestampReader, a: View, section: Step) {
    match section
    case DryRunStep(s, _) => Decision(a.metadata, a.selected, s).None? && s.items != []
    case ActivateStep(s, required, clock, _, _) => Attempts(epoch, required, clock, a, s)
    case _ => false
  }

  /** What may be selected and served before the last write of a section; startup and dry runs never reload. */
  function CutPoints(epoch: TimestampReader, a: View, section: Step): set<Point> {
    match section
    case ActivateStep(s, required, clock, _, _) => ActivationPoints(epoch, required, clock, a, s)
    case DryRunStep(s, _) =>
      if Decision(a.metadata, a.selected, s).Some? then {Here(a)}
      else {Here(a), Point(SnapshotContent(epoch, s), a.running), Point(EMPTY, a.running)}
    case StartupStep(_) => {Here(a), Point(EMPTY, a.running)}
    case _ => Emptying(a)
  }

  /**
   * The process dies before the last write of a section and the lock comes free. After the
   * last write the disk is as the completed section leaves it.
   */
  ghost predicate Killed(epoch: TimestampReader, a: View, section: Step, b: View) {
    && Enters(epoch, a, section)
    && b.disabled == Entry(a, section).disabled && b.metadata == a.metadata
    && Here(b) in CutPoints(epoch, a, section) && Confirms(a, b, CutPoints(epoch, a, section))
  }

  ghost predicate Takes(epoch: TimestampReader, a: View, step: Step, b: View) {
    match step
    case DisableStep(r) => Deactivates(Entry(a, step), DisabledEmpty, r, b)
    case EnableStep(r) => Deactivates(Entry(a, step), PendingEmpty, r, b)
    case OffStep(r) => KeepsEmpty(a, ModeEmpty, r, b)
    case LatchedStep(r) => a.disabled && KeepsEmpty(a, DisabledEmpty, r, b)
    case DryRunStep(s, r) => Valid(epoch, s) && DryRuns(a, s, r, b)
    case ActivateStep(s, required, clock, until, r) =>
      Valid(epoch, s) && Activates(epoch, required, clock, until, a, s, r, b)
    case StartupStep(mode) => StartsUp(a, mode, b)
    case KilledStep(section) => Killed(epoch, a, section, b)
  }

  /** Every crash point that a section's methods admit is a step of its being killed. */
  lemma CutsAreKills(epoch: TimestampReader, a: View, section: Step, before: seq<View>, after: seq<View>, i: nat)
    requires Enters(epoch, a, section) && |before| <= i < |after| - 1
    requires Through(Entry(a, section), before, after, CutPoints(epoch, a, section))
    ensures Takes(epoch, a, KilledStep(section), after[i])
  {
    hide CutPoints, Valid;
  }

  /** The views at which the lock is free, and the sections between them. */
  ghost predicate IsRun(epoch: TimestampReader, views: seq<View>, steps: seq<Step>) {
    && |views| == |steps| + 1
    && forall i :: 0 <= i < |steps| ==> Takes(epoch, views[i], steps[i], views[i + 1])
  }

  ghost predicate Reaches(epoch: TimestampReader, a: View, b: View) {
    exists views: seq<View>, steps: seq<Step> :: IsRun(epoch, views, steps) && views[0] == a && views[|steps|] == b
  }

  lemma StaysPut(epoch: TimestampReader, a: View)
    ensures Reaches(epoch, a, a)
  {
    assert IsRun(epoch, [a], []);
  }

  lemma StepReaches(epoch: TimestampReader, a: View, step: Step, b: View)
    requires Takes(epoch, a, step, b)
    ensures Reaches(epoch, a, b)
  {
    assert IsRun(epoch, [a, b], [step]);
  }

  lemma ReachesTransitive(epoch: TimestampReader, a: View, b: View, c: View)
    requires Reaches(epoch, a, b) && Reaches(epoch, b, c)
    ensures Reaches(epoch, a, c)
  {
    hide Takes;
    var v, s :| IsRun(epoch, v, s) && v[0] == a && v[|s|] == b;
    var w, t :| IsRun(epoch, w, t) && w[0] == b && w[|t|] == c;
    var views, steps := v + w[1..], s + t;
    forall i | 0 <= i < |steps| ensures Takes(epoch, views[i], steps[i], views[i + 1]) {
      if i < |s| {
        assert Takes(epoch, v[i], s[i], v[i + 1]);
      } else {
        assert Takes(epoch, w[i - |s|], t[i - |s|], w[i - |s| + 1]);
      }
    }
    assert IsRun(epoch, views, steps);
  }

  // -------------------------------------------------------------- the latch

  /** A set latch means that the canonical empty file is selected. */
  ghost predicate LatchHolds(v: View) { v.disabled ==> v.selected == EMPTY }

  /** Killed between latch and file, or while a dry run validates a rendering under a set latch. */
  predicate CutsLatch(epoch: TimestampReader, a: View, step: Step) {
    && step.KilledStep?
    && ((step.section.DisableStep? && a.selected != EMPTY) || (a.disabled && Renders(epoch, a, step.section)))
  }

  /** Only a section that renders comes through a point where another file is selected. */
  lemma RendersIff(epoch: TimestampReader, a: View, section: Step)
    ensures !Renders(epoch, a, section) ==>
      forall p :: p in CutPoints(epoch, a, section) ==> p.selected == a.selected || p.selected == EMPTY
    ensures Renders(epoch, a, section) ==> SnapshotContent(epoch, section.s) != EMPTY
    ensures Renders(epoch, a, section) ==>
      forall p :: p in CutPoints(epoch, a, section) ==>
        p.selected in {a.selected, EMPTY, SnapshotContent(epoch, section.s)}
  {
    hide SnapshotContent, LatestItem, LongEnough;
    if section.ActivateStep? || section.DryRunStep? {
      EmptyRendering(epoch, section.s);
    }
  }

  lemma StepKeepsLatch(epoch: TimestampReader, a: View, step: Step, b: View)
    requires Takes(epoch, a, step, b) && LatchHolds(a) && !CutsLatch(epoch, a, step)
    ensures LatchHolds(b)
  {
    hide Valid, SnapshotContent, LatestItem, LongEnough;
    if step.KilledStep? {
      RendersIff(epoch, a, step.section);
    }
  }

  /** A killed section can leave the latch set over another file in exactly these two cases. */
  lemma KilledLatchIff(epoch: TimestampReader, a: View, section: Step)
    requires LatchHolds(a) && Enters(epoch, a, section)
    ensures (exists b :: Takes(epoch, a, KilledStep(section), b) && !LatchHolds(b))
            <==> CutsLatch(epoch, a, KilledStep(section))
  {
    hide Valid, SnapshotContent, LatestItem, LongEnough;
    RendersIff(epoch, a, section);
    if CutsLatch(epoch, a, KilledStep(section)) {
      if section.DisableStep? {
        assert Takes(epoch, a, KilledStep(section), Entry(a, section));
      } else {
        EmptyRendering(epoch, section.s);
        var b := a.(selected := SnapshotContent(epoch, section.s));
        assert Takes(epoch, a, KilledStep(section), b);
      }
    }
  }

  /** Whatever was left before, every completed section but a dry run ends with the latch right. */
  lemma SectionRestoresLatch(epoch: TimestampReader, a: View, step: Step, b: View)
    requires Takes(epoch, a, step, b) && !step.KilledStep? && !step.DryRunStep?
    ensures LatchHolds(b)
  {
    hide Valid, SnapshotContent, LatestItem, LongEnough;
  }

  /** In every run without such a kill, whatever the snapshots and the answers, failed rollbacks included. */
  lemma {:induction false} RunKeepsLatch(epoch: TimestampReader, views: seq<View>, steps: seq<Step>, i: nat)
    requires IsRun(epoch, views, steps) && LatchHolds(views[0]) && i < |views|
    requires forall k :: 0 <= k < i ==> !CutsLatch(epoch, views[k], steps[k])
    ensures LatchHolds(views[i])
  {
    hide Takes, CutsLatch;
    if i > 0 {
      RunKeepsLatch(epoch, views, steps, i - 1);
      assert Takes(epoch, views[i - 1], steps[i - 1], views[i]);
      StepKeepsLatch(epoch, views[i - 1], steps[i - 1], views[i]);
    }
  }

  // ----------------------------------------------------------- the metadata

  lemma StepKeepsSound(epoch: TimestampReader, a: View, step: Step, b: View)
    requires Takes(epoch, a, step, b) && SoundMetadata(epoch, a)
    ensures SoundMetadata(epoch, b)
  {
    hide Valid, SnapshotContent, LatestItem, LongEnough;
    if step.ActivateStep? {
      EmptyRendering(epoch, step.s);
    }
  }

  lemma {:induction false} RunKeepsSound(epoch: TimestampReader, views: seq<View>, steps: seq<Step>, i: nat)
    requires IsRun(epoch, views, steps) && SoundMetadata(epoch, views[0]) && i < |views|
    ensures SoundMetadata(epoch, views[i])
  {
    hide Takes;
    if i > 0 {
      RunKeepsSound(epoch, views, steps, i - 1);
      assert Takes(epoch, views[i - 1], steps[i - 1], views[i]);
      StepKeepsSound(epoch, views[i - 1], steps[i - 1], views[i]);
    }
  }

  /** `no_change` is answered only over the very bytes that the incoming snapshot renders to. */
  lemma NoChangeIsExact(epoch: TimestampReader, v: View, s: Snapshot)
    requires SoundMetadata(epoch, v) && Valid(epoch, s)
    requires Decision(v.metadata, v.selected, s) == Some(NoChange)
    ensures v.selected == SnapshotContent(epoch, s)
    ensures v.selected in v.confirmed
  {
    hide Valid, SnapshotContent;
    var t :| Describes(epoch, t, v.metadata);
    ChecksumNamesContent(epoch, s, t);
  }

  /** The step answered that the incoming snapshot changes nothing. */
  predicate AnswersNoChange(step: Step, s: Snapshot) {
    (step.ActivateStep? || step.DryRunStep?) && step.s == s && step.r == Returned(NoChange)
  }

  /** Over every run from a sound state: `no_change` tells the truth about the file. */
  lemma RunAnswersNoChangeExactly(epoch: TimestampReader, views: seq<View>, steps: seq<Step>, i: nat, s: Snapshot)
    requires IsRun(epoch, views, steps) && SoundMetadata(epoch, views[0]) && i < |steps|
    requires AnswersNoChange(steps[i], s)
    ensures views[i + 1].selected == SnapshotContent(epoch, s) && views[i + 1] == views[i]
  {
    hide Valid, SnapshotContent;
    RunKeepsSound(epoch, views, steps, i);
    assert Takes(epoch, views[i], steps[i], views[i + 1]);
    NoChangeIsExact(epoch, views[i], s);
  }

  // ------------------------------------------------------- the selected file

  /** The metadata is authoritative and names this file, or the file is the empty one. */
  predicate Names(m: Metadata, file: string) {
    file != EMPTY ==> m.kind == Authoritative && m.file == Sha256(file)
  }

  ghost predicate SelectionNamed(v: View) { Names(v.metadata, v.selected) }

  /** The probe found no rule in force any more and its error left the section. */
  predicate Escapes(step: Step) {
    step.ActivateStep? && step.r.Raised? && step.r.failure.ProbeValueError?
  }

  /** The section gets as far as the probe and may still be running when the last block has ended. */
  predicate CanEscape(epoch: TimestampReader, a: View, step: Step) {
    && step.ActivateStep?
    && Attempts(epoch, step.required, step.clock, a, step.s)
    && forall x :: x in step.s.items ==> 0 <= Cutoff(epoch, x) <= step.until.Floor
  }

  /** The section ends within the margin that its probe item must last. */
  predicate InTime(step: Step) {
    step.ActivateStep? ==> step.until - step.clock < step.required as real
  }

  lemma NoRuleIff(epoch: TimestampReader, s: Snapshot, at: int)
    requires Valid(epoch, s)
    ensures ReadBack.ProbeRule(SnapshotContent(epoch, s), at).None?
            <==> forall x :: x in s.items ==> 0 <= Cutoff(epoch, x) <= at
  {
    hide Content, ReadBack.ProbeRule, Cutoff, Text.CanonicalIp;
    ReadBackLaws.ValidIsReadable(epoch, s);
    ReadBackLaws.ProbeRuleReadsBack(epoch, s.revision, s.items, at);
  }

  /** The error can escape at a given second exactly when all blocks have ended by then. */
  lemma EscapeIff(epoch: TimestampReader, a: View, s: Snapshot, required: int, clock: real, until: real, at: int)
    requires Valid(epoch, s)
    ensures var step := ActivateStep(s, required, clock, until, Raised(ProbeValueError(at)));
      (exists b :: Takes(epoch, a, step, b))
      <==> Attempts(epoch, required, clock, a, s) && at <= until.Floor
           && forall x :: x in s.items ==> 0 <= Cutoff(epoch, x) <= at
  {
    hide Valid, LatestItem, LongEnough, SnapshotContent, ReadBack.ProbeRule, Cutoff;
    var step := ActivateStep(s, required, clock, until, Raised(ProbeValueError(at)));
    NoRuleIff(epoch, s, at);
    if Attempts(epoch, required, clock, a, s) && at <= until.Floor
       && (forall x :: x in s.items ==> 0 <= Cutoff(epoch, x) <= at) {
      var content := SnapshotContent(epoch, s);
      assert Takes(epoch, a, step, a.(selected := content, running := content, previous := Some(a.selected)));
    }
  }

  lemma EntersByTaking(epoch: TimestampReader, a: View, step: Step, b: View)
    requires Takes(epoch, a, step, b) && !step.KilledStep?
    ensures Enters(epoch, a, step)
  {
    hide Valid, Activates, DryRuns, KeepsEmpty, Deactivates;
  }

  /** An escape takes a section that lasts at least the whole margin. */
  lemma EscapeNeedsMargin(epoch: TimestampReader, a: View, step: Step, b: View)
    requires Takes(epoch, a, step, b) && Escapes(step)
    ensures CanEscape(epoch, a, step)
    ensures step.until >= step.r.failure.at as real >= step.clock + step.required as real
  {
    hide Takes, Valid, LatestItem, Cutoff;
    assert Valid(epoch, step.s) by {
      EntersByTaking(epoch, a, step, b);
    }
    EscapeIff(epoch, a, step.s, step.required, step.clock, step.until, step.r.failure.at);
    assert step == ActivateStep(step.s, step.required, step.clock, step.until,
                                Raised(ProbeValueError(step.r.failure.at)));
    assert LatestItem(epoch, step.s.items) in step.s.items;
  }

  lemma InTimeCannotEscape(epoch: TimestampReader, a: View, step: Step)
    requires InTime(step)
    ensures !CanEscape(epoch, a, step)
  {
    hide LatestItem, Cutoff;
    if step.ActivateStep? && step.s.items != [] {
      assert LatestItem(epoch, step.s.items) in step.s.items;
    }
  }

  /** What can leave a selected file that no metadata names: an escape, or a kill while the rendering is in place. */
  predicate CanLoseName(epoch: TimestampReader, a: View, step: Step) {
    || (CanEscape(epoch, a, step) && !Names(a.metadata, SnapshotContent(epoch, step.s)))
    || (step.KilledStep? && Renders(epoch, a, step.section)
        && !Names(a.metadata, SnapshotContent(epoch, step.section.s)))
  }

  /** What can lose the name, and is an escape or a kill. */
  predicate LosesName(epoch: TimestampReader, a: View, step: Step) {
    CanLoseName(epoch, a, step) && (Escapes(step) || step.KilledStep?)
  }

  lemma KillKeepsNamed(epoch: TimestampReader, a: View, step: Step, b: View)
    requires Takes(epoch, a, step, b) && SelectionNamed(a) && step.KilledStep? && !CanLoseName(epoch, a, step)
    ensures SelectionNamed(b)
  {
    hide Valid, SnapshotContent, Attempts, CanEscape;
    RendersIff(epoch, a, step.section);
  }

  lemma CompletionKeepsNamed(epoch: TimestampReader, a: View, step: Step, b: View)
    requires Takes(epoch, a, step, b) && SelectionNamed(a) && !step.KilledStep? && !Escapes(step)
    ensures SelectionNamed(b)
  {
    hide Valid, SnapshotContent, LatestItem, LongEnough;
  }

  lemma EscapeSelects(epoch: TimestampReader, a: View, step: Step, b: View)
    requires Takes(epoch, a, step, b) && Escapes(step)
    ensures b.selected == SnapshotContent(epoch, step.s) && b.metadata == a.metadata
  {
    hide Valid, SnapshotContent, LatestItem, LongEnough, ReadBack.ProbeRule;
  }

  lemma StepKeepsNamed(epoch: TimestampReader, a: View, step: Step, b: View)
    requires Takes(epoch, a, step, b) && SelectionNamed(a) && !LosesName(epoch, a, step)
    ensures SelectionNamed(b)
  {
    hide Valid, SnapshotContent, LatestItem, LongEnough, Takes, CanEscape, Attempts;
    if Escapes(step) {
      EscapeNeedsMargin(epoch, a, step, b);
      EscapeSelects(epoch, a, step, b);
    } else if step.KilledStep? {
      KillKeepsNamed(epoch, a, step, b);
    } else {
      CompletionKeepsNamed(epoch, a, step, b);
    }
  }

  /** A killed section can lose the name exactly then. */
  lemma KilledNameIff(epoch: TimestampReader, a: View, section: Step)
    requires SelectionNamed(a) && Enters(epoch, a, section)
    ensures (exists b :: Takes(epoch, a, KilledStep(section), b) && !SelectionNamed(b))
            <==> CanLoseName(epoch, a, KilledStep(section))
  {
    hide Valid, SnapshotContent, Attempts;
    RendersIff(epoch, a, section);
    if CanLoseName(epoch, a, KilledStep(section)) {
      var b := a.(selected := SnapshotContent(epoch, section.s));
      assert Takes(epoch, a, KilledStep(section), b) && !SelectionNamed(b);
    }
  }

  lemma SameDanger(epoch: TimestampReader, a: View, step: Step, done: Step)
    requires step.ActivateStep? && done.ActivateStep? && done.(r := step.r) == step
    ensures CanLoseName(epoch, a, step) <==> CanLoseName(epoch, a, done)
  {
    hide Attempts, Cutoff, SnapshotContent, Names;
  }

  lemma EscapeLosesName(epoch: TimestampReader, a: View, step: Step) returns (b: View)
    requires step.ActivateStep? && step.r == Raised(ProbeValueError(step.until.Floor))
    requires CanLoseName(epoch, a, step) && Valid(epoch, step.s)
    ensures Takes(epoch, a, step, b) && !SelectionNamed(b)
  {
    hide Takes, Attempts, Cutoff, SnapshotContent, Valid, LatestItem, Names;
    EscapeIff(epoch, a, step.s, step.required, step.clock, step.until, step.until.Floor);
    b :| Takes(epoch, a, step, b);
    EscapeSelects(epoch, a, step, b);
  }

  /** A completed activation can lose the name exactly then. */
  lemma EscapedNameIff(epoch: TimestampReader, a: View, s: Snapshot, required: int, clock: real, until: real)
    requires SelectionNamed(a) && Valid(epoch, s)
    ensures var late := Raised(ProbeValueError(until.Floor));
      (exists r, b :: Takes(epoch, a, ActivateStep(s, required, clock, until, r), b) && !SelectionNamed(b))
      <==> CanLoseName(epoch, a, ActivateStep(s, required, clock, until, late))
  {
    hide Takes, Attempts, Cutoff, SnapshotContent, Valid, SelectionNamed, CanLoseName;
    var step := ActivateStep(s, required, clock, until, Raised(ProbeValueError(until.Floor)));
    if r, b :| Takes(epoch, a, ActivateStep(s, required, clock, until, r), b) && !SelectionNamed(b) {
      var done := ActivateStep(s, required, clock, until, r);
      SameDanger(epoch, a, step, done);
      if !CanLoseName(epoch, a, done) {
        StepKeepsNamed(epoch, a, done, b);
      }
    }
    if CanLoseName(epoch, a, step) {
      var b := EscapeLosesName(epoch, a, step);
    }
  }

  lemma {:induction false} RunKeepsNamed(epoch: TimestampReader, views: seq<View>, steps: seq<Step>, i: nat)
    requires IsRun(epoch, views, steps) && SelectionNamed(views[0]) && i < |views|
    requires forall k :: 0 <= k < i ==> !LosesName(epoch, views[k], steps[k])
    ensures SelectionNamed(views[i])
  {
    hide Takes, LosesName;
    if i > 0 {
      RunKeepsNamed(epoch, views, steps, i - 1);
      assert Takes(epoch, views[i - 1], steps[i - 1], views[i]);
      StepKeepsNamed(epoch, views[i - 1], steps[i - 1], views[i]);
    }
  }

  /** When no section lasts as long as its margin, and none is killed, the selection stays named. */
  lemma RunInTimeKeepsNamed(epoch: TimestampReader, views: seq<View>, steps: seq<Step>, i: nat)
    requires IsRun(epoch, views, steps) && SelectionNamed(views[0]) && i < |views|
    requires forall k :: 0 <= k < i ==> InTime(steps[k]) && !steps[k].KilledStep?
    ensures SelectionNamed(views[i])
  {
    hide InTime, CanEscape, Renders, Names, Takes;
    forall k | 0 <= k < i ensures !CanLoseName(epoch, views[k], steps[k]) {
      InTimeCannotEscape(epoch, views[k], steps[k]);
    }
    hide CanLoseName, Escapes;
    RunKeepsNamed(epoch, views, steps, i);
  }

  // -------------------------------------------------------- what NGINX serves

  /** A state recorded as confirmed is the state that NGINX serves. */
  ghost predicate RecordServed(v: View) {
    v.metadata.selectedAt.Some? && v.metadata.file == Sha256(v.selected) ==> v.running == v.selected
  }

  /**
   * The section tries a non-empty rendering while a confirmed empty state is on record: if the
   * rollback fails as well, the record stays and NGINX may serve the rendering.
   */
  predicate CanStrand(epoch: TimestampReader, a: View, step: Step) {
    && step.ActivateStep?
    && Attempts(epoch, step.required, step.clock, a, step.s)
    && a.metadata.selectedAt.Some? && a.metadata.file == Sha256(EMPTY)
  }

  /** The rollback of such a section has failed. */
  predicate Strands(epoch: TimestampReader, a: View, step: Step) {
    CanStrand(epoch, a, step) && step.r == Raised(RollbackError)
  }

  /**
   * Killed while the metadata names, as confirmed, a file that is or comes to be selected and
   * that NGINX need not serve: the old file under an activation's rollback, or the rendering.
   */
  predicate CutsRecord(epoch: TimestampReader, a: View, step: Step) {
    && step.KilledStep? && Renders(epoch, a, step.section) && a.metadata.selectedAt.Some?
    && var content := SnapshotContent(epoch, step.section.s);
      || (step.section.ActivateStep? && a.metadata.file == Sha256(a.selected) && content != a.selected)
      || (a.metadata.file == Sha256(content) && a.running != content)
  }

  lemma CompletionKeepsServed(epoch: TimestampReader, a: View, step: Step, b: View)
    requires Takes(epoch, a, step, b) && RecordServed(a) && SelectionNamed(a)
    requires !Strands(epoch, a, step) && !step.KilledStep?
    ensures RecordServed(b)
  {
    hide Valid, SnapshotContent, LatestItem, LongEnough;
  }

  lemma KillKeepsServed(epoch: TimestampReader, a: View, section: Step, b: View)
    requires Killed(epoch, a, section, b) && RecordServed(a) && SelectionNamed(a)
    requires !CutsRecord(epoch, a, KilledStep(section))
    ensures RecordServed(b)
  {
    hide EMPTY, Valid, SnapshotContent, LatestItem, LongEnough, Confirms;
    RendersIff(epoch, a, section);
  }

  lemma StepKeepsServed(epoch: TimestampReader, a: View, step: Step, b: View)
    requires Takes(epoch, a, step, b) && RecordServed(a) && SelectionNamed(a)
    requires !Strands(epoch, a, step) && !CutsRecord(epoch, a, step)
    ensures RecordServed(b)
  {
    hide Valid, SnapshotContent, LatestItem, LongEnough;
    if step.KilledStep? {
      KillKeepsServed(epoch, a, step.section, b);
    } else {
      CompletionKeepsServed(epoch, a, step, b);
    }
  }

  /** A killed section can leave a false record exactly then; in particular a kill while emptying never does. */
  lemma KilledRecordIff(epoch: TimestampReader, a: View, section: Step)
    requires Enters(epoch, a, section) && RecordServed(a) && SelectionNamed(a)
    ensures (exists b :: Takes(epoch, a, KilledStep(section), b) && !RecordServed(b))
            <==> CutsRecord(epoch, a, KilledStep(section))
  {
    hide EMPTY, Valid, SnapshotContent, Attempts, Decision;
    RendersIff(epoch, a, section);
    if CutsRecord(epoch, a, KilledStep(section)) {
      var content := SnapshotContent(epoch, section.s);
      var b := if a.metadata.file == Sha256(content) && a.running != content
        then a.(selected := content) else a.(running := content);
      assert Takes(epoch, a, KilledStep(section), b) && !RecordServed(b);
    }
    if b :| Takes(epoch, a, KilledStep(section), b) && !RecordServed(b) {
      if !CutsRecord(epoch, a, KilledStep(section)) {
        KillKeepsServed(epoch, a, section, b);
      }
    }
  }

  /** A failed rollback can leave a false record exactly when a confirmed empty state was on record. */
  lemma CanStrandIff(epoch: TimestampReader, a: View, s: Snapshot, required: int, clock: real, until: real)
    requires Valid(epoch, s) && RecordServed(a) && SelectionNamed(a)
    ensures var step := ActivateStep(s, required, clock, until, Raised(RollbackError));
      (exists b :: Takes(epoch, a, step, b) && !RecordServed(b)) <==> CanStrand(epoch, a, step)
  {
    hide Valid, SnapshotContent, LatestItem, LongEnough;
    var step := ActivateStep(s, required, clock, until, Raised(RollbackError));
    if CanStrand(epoch, a, step) {
      EmptyRendering(epoch, s);
      var b := a.(selected := EMPTY, running := SnapshotContent(epoch, s));
      assert Transacts(epoch, until, a, s, Raised(RollbackError), b);
      assert Takes(epoch, a, step, b) && !RecordServed(b);
    } else if b :| Takes(epoch, a, step, b) && !RecordServed(b) {
      StepKeepsServed(epoch, a, step, b);
    }
  }

  /** No rollback of the section strands a rendering, no error escapes over one, and no kill cuts name or record. */
  predicate Steady(epoch: TimestampReader, a: View, step: Step) {
    !Strands(epoch, a, step) && !LosesName(epoch, a, step) && !CutsRecord(epoch, a, step)
  }

  lemma {:induction false} RunKeepsServed(epoch: TimestampReader, views: seq<View>, steps: seq<Step>, i: nat)
    requires IsRun(epoch, views, steps) && RecordServed(views[0]) && SelectionNamed(views[0]) && i < |views|
    requires forall k :: 0 <= k < i ==> Steady(epoch, views[k], steps[k])
    ensures RecordServed(views[i]) && SelectionNamed(views[i])
  {
    hide Takes, Strands, LosesName, CutsRecord;
    if i > 0 {
      RunKeepsServed(epoch, views, steps, i - 1);
      assert Takes(epoch, views[i - 1], steps[i - 1], views[i]);
      StepKeepsServed(epoch, views[i - 1], steps[i - 1], views[i]);
      StepKeepsNamed(epoch, views[i - 1], steps[i - 1], views[i]);
    }
  }

  /** In particular when no rollback fails, no error escapes and nothing is killed. */
  predicate Smooth(step: Step) {
    !(step.ActivateStep? && step.r == Raised(RollbackError)) && !Escapes(step) && !step.KilledStep?
  }

  lemma SmoothIsSteady(epoch: TimestampReader, a: View, step: Step)
    requires Smooth(step)
    ensures Steady(epoch, a, step)
  {
    hide CanLoseName, Attempts;
  }

  /** A section that answers with an empty kind after asking NGINX or trusting the record. */
  predicate AnswersEmpty(step: Step) {
    (step.OffStep? || step.LatchedStep? || step.DisableStep? || step.EnableStep?) && step.r.Returned?
  }

  /** In a run of steady sections such an answer means that NGINX serves no block. */
  lemma EmptyAnswerIsServed(epoch: TimestampReader, views: seq<View>, steps: seq<Step>, i: nat)
    requires IsRun(epoch, views, steps) && RecordServed(views[0]) && SelectionNamed(views[0]) && i < |steps|
    requires forall k :: 0 <= k < i ==> Steady(epoch, views[k], steps[k])
    requires AnswersEmpty(steps[i])
    ensures views[i + 1].selected == EMPTY && views[i + 1].running == EMPTY
  {
    hide Steady;
    RunKeepsServed(epoch, views, steps, i);
    assert Takes(epoch, views[i], steps[i], views[i + 1]);
  }

  // ---------------------------------------------------------------- revisions

  /** From authoritative to authoritative: the same state again, or a strictly greater revision. */
  lemma StepAdvances(epoch: TimestampReader, a: View, step: Step, b: View)
    requires Takes(epoch, a, step, b)
    requires SoundMetadata(epoch, a) && SoundMetadata(epoch, b)
    requires a.metadata.kind == b.metadata.kind == Authoritative
    ensures a.metadata.revision.Some? && b.metadata.revision.Some?
    ensures b.metadata.revision.value > a.metadata.revision.value
            || (b.metadata.revision == a.metadata.revision && b.metadata.state == a.metadata.state
                && b.metadata.file == a.metadata.file)
  {
    hide Valid, SnapshotContent, LatestItem, LongEnough;
    var s :| Describes(epoch, s, a.metadata);
    var t :| Describes(epoch, t, b.metadata);
    if s.stateChecksum == t.stateChecksum {
      ChecksumNamesContent(epoch, s, t);
    }
  }

  /** While the kind stays authoritative revisions never go back, and one revision names one state. */
  lemma {:induction false} RunNeverGoesBack(epoch: TimestampReader, views: seq<View>, steps: seq<Step>, i: nat, j: nat)
    requires IsRun(epoch, views, steps) && SoundMetadata(epoch, views[0]) && i <= j < |views|
    requires forall k :: i <= k <= j ==> views[k].metadata.kind == Authoritative
    ensures views[i].metadata.revision.Some? && views[j].metadata.revision.Some?
    ensures views[i].metadata.revision.value <= views[j].metadata.revision.value
    ensures views[i].metadata.revision == views[j].metadata.revision ==>
              views[i].metadata.state == views[j].metadata.state && views[i].metadata.file == views[j].metadata.file
  {
    hide Takes, Valid, SnapshotContent;
    RunKeepsSound(epoch, views, steps, j);
    if i < j {
      RunNeverGoesBack(epoch, views, steps, i, j - 1);
      RunKeepsSound(epoch, views, steps, j - 1);
      assert Takes(epoch, views[j - 1], steps[j - 1], views[j]);
      StepAdvances(epoch, views[j - 1], steps[j - 1], views[j]);
    }
  }

  /** What a dry run answers, by revision, state and file alone. */
  lemma DryRunsByRevision(a: View, s: Snapshot, r: Outcome, b: View)
    requires DryRuns(a, s, r, b)
    ensures r == Returned(StaleIgnored) <==> Holds(a.metadata) && s.revision < a.metadata.revision.value
    ensures r == Returned(ConflictRejected) <==>
      && Holds(a.metadata) && s.revision == a.metadata.revision.value
      && a.metadata.state != Some(s.stateChecksum)
    ensures r == Returned(NoChange) <==>
      && Holds(a.metadata) && s.revision == a.metadata.revision.value
      && a.metadata.state == Some(s.stateChecksum) && a.metadata.file == Sha256(a.selected)
    ensures r.Returned? && !r.answer.Selected? ==> b == a
  {
  }

  /** A confirmed empty state is answered again without touching NGINX or the files. */
  lemma KeepingEmptyIsIdempotent(a: View, kind: Kind, r: Outcome, b: View, r': Outcome, c: View)
    requires kind != Authoritative && Deactivates(a, kind, r, b) && r.Returned? && KeepsEmpty(b, kind, r', c)
    ensures r' == Returned(Selected(kind)) && c == b
  {
  }

  /** What startup leaves is trusted under no kind: the first answer of an empty kind has NGINX confirm the file. */
  lemma StartupIsNotTrusted(a: View, mode: Mode, b: View, kind: Kind, r: Outcome, c: View)
    requires StartsUp(a, mode, b) && KeepsEmpty(b, kind, r, c)
    ensures r.Returned? ==> c.running == EMPTY && EMPTY in c.confirmed && c.metadata.selectedAt.Some?
  {
  }

  // ------------------------------------------------------------------ crashes

  /**
   * Whatever a crash leaves behind, startup and every run after it are safe: metadata is
   * sound, and latch, selection and record are right as long as nothing endangers them.
   */
  lemma RestartedRunIsSafe(epoch: TimestampReader, crash: View, mode: Mode, views: seq<View>, steps: seq<Step>, i: nat)
    requires IsRun(epoch, views, steps) && i < |views| && StartsUp(crash, mode, views[0])
    ensures SoundMetadata(epoch, views[i])
    ensures (forall k :: 0 <= k < i ==> !CutsLatch(epoch, views[k], steps[k])) ==> LatchHolds(views[i])
    ensures (forall k :: 0 <= k < i ==> !LosesName(epoch, views[k], steps[k])) ==> SelectionNamed(views[i])
    ensures (forall k :: 0 <= k < i ==> Steady(epoch, views[k], steps[k])) ==> RecordServed(views[i])
  {
    hide Takes, CutsLatch, LosesName, Steady;
    RunKeepsSound(epoch, views, steps, i);
    if forall k :: 0 <= k < i ==> !CutsLatch(epoch, views[k], steps[k]) {
      RunKeepsLatch(epoch, views, steps, i);
    }
    if forall k :: 0 <= k < i ==> !LosesName(epoch, views[k], steps[k]) {
      RunKeepsNamed(epoch, views, steps, i);
    }
    if forall k :: 0 <= k < i ==> Steady(epoch, views[k], steps[k]) {
      RunKeepsServed(epoch, views, steps, i);
    }
  }
}
