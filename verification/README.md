# Verified model of the WAF runtime, the outbox, the audit bridge and the clustering step

A Dafny model of four components and proofs of what they promise. `dafny verify dfyconfig.toml`
checks the whole project.

**The WAF activation runtime** (`waf_runtime/`). A reconciler fetches a versioned snapshot, renders it
to ModSecurity rules, selects the file, validates, reloads and probes NGINX, and then commits metadata
or rolls back, first to the previous file and then to a canonical empty one. A control command flips a
`DISABLED` latch under the same lock.

- `Text`, `Sorting`, `Items`, `CanonicalJson`, `Snapshots`: numbers and addresses as text, the sort
  key, the canonical JSON printer, validation and checksums. SHA-256 is a datatype constructor, so a
  digest stands for one content.
- `Render`, `RuleSemantics`: the renderer, and a meaning for rule files that does not look at how they
  were rendered (cut into lines, parsed, evaluated as chains on a request).
- `ReadBack`, `ReadBackLaws`, `Probing`: the regular expressions with which the controller reads a
  candidate back, proved to undo the renderer, and the requests with which it probes.
- `Store`, `Nginx`, `Protocol`, `Activation`, `Controls`: classes with the source's fields and
  methods. Every method is proved against a relation of `Protocol` between the state at the start and
  at the end of a lock section. NGINX answers arbitrarily within what it can do. A ghost trace holds
  the state after each atomic file replacement, which is every point where a crash can leave the disk.
  Every method that writes says that the trace has grown and what its new points may show.
  A ghost count of mishaps (a no from NGINX, a candidate rewritten by somebody else) says what a
  failure must have had as a cause.
- `Runs`: all interleavings of disable, enable, reconcilers holding snapshots of any age, restarts and
  processes killed inside a section, as runs of these relations; the safety theorems are about every
  view at which the lock is free. Where a property can fail, the exact condition on the state and the
  arguments before the section is proved, and the runs exclude only the sections that meet it and do
  end in the failure.
- `Witnesses`: a concrete input for each finding below.

**Near-duplicate clustering** (`data/clean_907k.py`): `UnionFind`, `Clusters`, `Capping`.

**The notification outbox** (three SQL functions): `Outbox` is the table with its operations,
`OutboxRuns` a transition system in which a claim is in flight from the moment it locks its rows.

**The audit bridge** (`scripts/waf_audit_bridge.py`): `DedupCache`, `Bridge`, `Follower`.

## Findings

Each is a property that fails, with the exact condition under which it holds and an input on which it
does not.

1. The `ValueError` of the probe at `waf_runtime/activation.py:74` is not caught. It can escape exactly
   when a non-empty rendering is attempted and every block has reached its cutoff before the section
   ends (`Runs.EscapeIff`, `Runs.EscapedNameIff`), which takes a section at least as long as the margin
   that the probe item must last (`Runs.EscapeNeedsMargin`). The new file then stays selected under
   the old metadata (`Witnesses.EscapeLosesTheName`).
2. When an activation starts from a confirmed empty state and its rollback fails as well, NGINX may go
   on serving the candidate under the record "confirmed empty", and only then
   (`Runs.CanStrandIff`). The worker dies of this error and takes NGINX with it, but `enable` swallows
   it (`waf_runtime/controls.py:39`) and reports `pending_empty` over the block
   (`Witnesses.EnableHidesABlock`). With overlapping control commands the worker can come to answer
   `disabled_empty` from an old record, over a set latch, while NGINX serves the block
   (`Witnesses.OldRecordFoolsTheLatch`).
3. A cutoff before the epoch prints a minus sign that the expiry pattern does not match, and the
   expired item then reads as one that never expires (`ReadBackLaws.ProbeRuleMisledIff`,
   `Witnesses.NegativeCutoffMisleads`).
4. A lease that its holder abandons on the last attempt is never claimed again, and neither is one
   taken with a NULL duration, which `NOT BETWEEN` lets through; every other abandoned lease can be
   claimed (`OutboxRuns.StuckLease`, `Witnesses.AbandonedLeaseIsLost`).
5. Following a log from its end may start inside a line and process its tail as if it were a line
   (`Follower.StartCutsNoLineIff`, `Witnesses.TailIsConsumedAsALine`).
6. A `disable` killed between the latch and the file leaves the latch set over a selected block until
   the next completed section other than a dry run or a mere comparison of revisions, and a dry run
   killed while it validates under a set latch leaves it over the candidate; no other kill does (`Runs.KilledLatchIff`, `Runs.SectionRestoresLatch`,
   `Witnesses.KilledDisableLeavesABlock`).

## Model

| member | source | states |
|---|---|---|
| Text.CanonicalIpIsPrinted | waf_runtime/snapshot.py:69-80 | the accepted source texts are exactly the printed IPv4 addresses, made of digits and dots |
| Text.IpRoundTrip | waf_runtime/nginx.py:249-256 | parsing undoes printing for all 2^32 addresses |
| Items.OrderedForgetsArrival | waf_runtime/snapshot.py:90-100 | with distinct entry ids the listing does not depend on arrival order |
| Items.OrderedAscends | waf_runtime/render.py:25-35 | the listing is strictly ascending by address, then path, expiry, recommendation and entry |
| CanonicalJson.StateTextInjective | waf_runtime/snapshot.py:101-114 | two states with the same canonical text agree in every field and every item |
| CanonicalJson.EscapesAre | waf_runtime/snapshot.py:109-109 | which characters are printed as they are, which as two-character escapes, and which in hexadecimal |
| CanonicalJson.HexIsLowerCase | waf_runtime/snapshot.py:109-109 | hexadecimal digits are printed in lower case |
| CanonicalJson.OneItemSpelled | waf_runtime/snapshot.py:101-113 | the exact text of a state with one item: keys sorted, no blanks, numbers bare, strings quoted |
| Snapshots.ChecksumNamesState | waf_runtime/snapshot.py:83-114 | equal checksums if and only if equal states up to item order |
| Snapshots.CheckItems | waf_runtime/snapshot.py:154-186 | no fault if and only if all items are valid and clash-free; otherwise the first fault in list order |
| Snapshots.ValidateSnapshot | waf_runtime/snapshot.py:117-204 | accepts exactly the valid snapshots, unchanged, and says which check fails first |
| Snapshots.ValidIff | waf_runtime/snapshot.py:117-204 | the accepted snapshots written out; in particular every address, entry and recommendation occurs at most once |
| Snapshots.ChecksumNamesSnapshot | waf_runtime/snapshot.py:187-195 | validated snapshots with one checksum have one revision and one set of blocks |
| Render.RenderCandidate | waf_runtime/render.py:20-56 | the loop prints the specified content, its checksum and its entry count, and refuses more than 512 items only |
| Render.EmptyRendering | waf_runtime/state.py:15 | the rendering is the canonical empty file if and only if there are no items |
| Render.ChecksumNamesContent | waf_runtime/render.py:59-60 | validated snapshots with the same state checksum render to the same bytes |
| RuleSemantics.ContentParses | waf_runtime/render.py:36-52 | the rendered file loads, as the directives of its items in order |
| RuleSemantics.RenderingPreservesMeaning | waf_runtime/render.py:20-56 | the rendered file denies a request if and only if some item has its source, the approved path and a later cutoff |
| RuleSemantics.BlockEndsBeforeExpiry | waf_runtime/render.py:36-52 | the rendered file of a validated snapshot denies the source of an item up to one instant, at least one and less than two seconds before that item expires |
| RuleSemantics.RenderedIds | waf_runtime/render.py:37-38 | the ids in the file are 10000, 10001, and so on, one per item and at most 10511 |
| RuleSemantics.RenderedRule | waf_runtime/render.py:36-52 | the k-th rule of the file: its path, id, status, phase, tags, source and cutoff |
| ReadBackLaws.SourcesReadBack | waf_runtime/nginx.py:212-217 | findall on a rendered file gives the items' addresses in listing order |
| ReadBackLaws.ContentCut | waf_runtime/nginx.py:221-221 | the lookahead split cuts a rendered file into its comment and one chunk per rule |
| ReadBackLaws.ProbeRuleReadsBack | waf_runtime/nginx.py:219-239 | the probe rule is one of the items that seem in force, with the greatest printed expiry, and is missing if and only if none does |
| ReadBack.LatestRuleIsFirst | waf_runtime/nginx.py:238-239 | of several rules with the greatest expiry the first one is used |
| ReadBackLaws.ProbeRuleIsLive | waf_runtime/nginx.py:219-239 | with a live item the probe uses source and recommendation of a live item with the greatest cutoff |
| ReadBackLaws.ProbeRuleMisledIff | waf_runtime/nginx.py:226-239 | without a live item a probe rule is still found if and only if some cutoff is negative |
| Probing.WrongSource | waf_runtime/nginx.py:249-256 | the least absent address, after at most one trial more than there are sources |
| Probing.ProbesDiscriminate | waf_runtime/nginx.py:82-117 | the candidate denies the positive probe of the inferred source while it is live and neither the wrong-source nor the wrong-path probe at any second |
| Probing.ChosenProbeDiscriminates | waf_runtime/activation.py:74-79 | the same for the source that activation passes, which is live whenever any item is |
| Probing.SourcesAscend | waf_runtime/render.py:25-38 | the addresses of the rules of a validated snapshot strictly ascend, so that the k-th smallest has the k-th id |
| Nginx.NginxController.ValidateCandidate | waf_runtime/nginx.py:41-59 | the active file is swapped and swapped back; both points are crash points; an accepted content is remembered |
| Nginx.NginxController.ReloadAndConfirm | waf_runtime/nginx.py:61-80 | a confirmed reload serves the selected file; otherwise the old or the selected one |
| Nginx.NginxController.ProbeCandidate | waf_runtime/nginx.py:82-117 | passes only for bytes equal to the selected file; raises only when no rule is in force at the second read |
| Nginx.NginxController.ProbeEmpty | waf_runtime/nginx.py:139-142 | an accepted probe of what NGINX serves confirms the selected bytes |
| Store.CandidateStateStore.WriteCandidate | waf_runtime/state.py:65-78 | a new name is written, an old name is accepted only with the same bytes, other names are refused |
| Store.CandidateStateStore.SelectCandidate | waf_runtime/state.py:98-111 | succeeds exactly for a present file with the expected checksum; the replaced bytes become the previous file, and a crash in between leaves the old file selected |
| Store.CandidateStateStore.RestorePrevious | waf_runtime/state.py:113-116 | selects the previous bytes, failing exactly when there are none |
| Store.CandidateStateStore.SetEmptyState | waf_runtime/state.py:145-149 | the empty file selected, recorded as not yet confirmed; crash points in between show the old metadata |
| Store.CandidateStateStore.PruneCandidates | waf_runtime/state.py:179-186 | at most one candidate stays, unchanged |
| Activation.ActivationManager.ConfirmEmpty | waf_runtime/activation.py:217-223 | changes only what NGINX serves and has confirmed; success means that it serves the confirmed empty file, and comes exactly when NGINX never says no |
| Activation.ActivationManager.TransitionToEmpty | waf_runtime/activation.py:90-100 | the empty file is selected either way; success means that NGINX serves it, and only a second no makes it fail |
| Activation.ActivationManager.DeactivateEmpty | waf_runtime/activation.py:90-101 | confirmed empty under the asked kind, or a rollback error with the empty file selected and metadata untouched |
| Activation.ActivationManager.ActivateAuthoritativeEmpty | waf_runtime/activation.py:118-137 | commits the empty snapshot with the checksum of the empty file, or fails with the empty file selected |
| Activation.ActivationManager.ConfirmSelected | waf_runtime/activation.py:203-215 | success means that NGINX serves the selected file and, under authoritative metadata, that a rule is in force; it fails only for a no or a lapsed probe |
| Activation.ActivationManager.RestorePrevious | waf_runtime/activation.py:183-201 | previous file and metadata served again whenever there is one and NGINX never says no; otherwise a confirmed pending empty state, or a failure with the empty file selected |
| Activation.ActivationManager.ProbeItem | waf_runtime/activation.py:225-236 | the first item with the greatest cutoff, exactly when it lasts three timeouts and at least a second |
| Activation.ActivationManager.WriteAndValidate | waf_runtime/activation.py:59-64 | refused exactly when the name is bad or taken by other bytes; the state is as it was, and an accepted content is remembered |
| Activation.ActivationManager.SelectChecked | waf_runtime/activation.py:65-70 | selects the rendered bytes, or says at which of the two comparisons they had been rewritten |
| Activation.ActivationManager.SelectRendered | waf_runtime/activation.py:59-70 | selects the rendered bytes, accepted by NGINX, even if others rewrite the candidate after validation, or leaves the state as it was; refused exactly when the name is bad or taken by other bytes |
| Activation.ActivationManager.NamesTellSnapshots | waf_runtime/activation.py:59-62 | candidates of different revisions or digest prefixes have different names |
| Activation.ActivationManager.NameIsTaken | waf_runtime/state.py:65-71 | such a name is never refused |
| Activation.ActivationManager.ConfirmRendered | waf_runtime/activation.py:71-81 | reload and probe, and what each failure leaves behind |
| Activation.ActivationManager.Transact | waf_runtime/activation.py:59-88 | all of the new state, none of it, a confirmed pending empty state, or a named failure; a failure needs a mishap, and a single one leaves the old file and metadata in force |
| Activation.ActivationManager.ActOn | waf_runtime/activation.py:53-88 | the empty, the expiring and the transactional case, and what each crash point may show |
| Activation.ActivationManager.Activate | waf_runtime/activation.py:45-88 | every outcome determines selected, running and metadata: the latch, the revision decision and the snapshot that is acted on; what is answered as selected was accepted by `nginx -t` |
| Protocol.DecisionByRevision | waf_runtime/activation.py:162-181 | which answer belongs to which revision, state and file; every newer revision is acted on |
| Protocol.ActivatesByRevision | waf_runtime/activation.py:45-52 | activate answers stale, conflict and no change exactly for the older revision, the equal one with another state, and the equal one with state and file in place |
| Protocol.NewerIsTried | waf_runtime/activation.py:53-88 | the rendering of a newer snapshot is tried whenever it would last and the latch is clear |
| Protocol.ActivationIsIdempotent | waf_runtime/activation.py:45-88 | a snapshot that was put in force is answered with `no_change` and nothing changes |
| Protocol.LatestIsFirst | waf_runtime/activation.py:228-231 | of several items with the greatest cutoff the first one is probed |
| Protocol.RequiredIsLeast | waf_runtime/activation.py:233-233 | the margin is the least whole number of seconds of at least one and at least three timeouts |
| Runs.CutsAreKills | waf_runtime/state.py:56-63 | every crash point that the contracts of a section admit, with what is selected, served and confirmed there, is a step of that section being killed |
| Runs.StepKeepsLatch | waf_runtime/controls.py:21-45 | every section keeps the empty file selected under a set latch, failed rollbacks included, and so does every kill but two |
| Runs.KilledLatchIff | waf_runtime/controls.py:22-26 | a killed section can break that if and only if it is a disable over a selected block, or a dry run validating a rendering under the latch |
| Runs.SectionRestoresLatch | waf_runtime/reconcile.py:26-43 | whatever was left before, every completed section but a dry run ends with it right |
| Runs.RunKeepsLatch | waf_runtime/controls.py:21-45 | in every run without such a kill a set latch means that the empty file is selected |
| Runs.StepKeepsSound | waf_runtime/activation.py:139-160 | each section keeps authoritative metadata naming a validated snapshot and bytes that NGINX once confirmed |
| Runs.RunKeepsSound | waf_runtime/state.py:151-157 | and so does every run |
| Runs.NoChangeIsExact | waf_runtime/activation.py:162-181 | `no_change` is decided only over the exact bytes that the incoming snapshot renders to, once confirmed by NGINX |
| Runs.RunAnswersNoChangeExactly | waf_runtime/reconcile.py:44-61 | over every run, killed processes included, an answered `no_change` is true of the selected file |
| Runs.EscapeIff | waf_runtime/activation.py:74-81 | the probe error can escape at a given second if and only if a non-empty rendering is attempted and all cutoffs lie between the epoch and that second |
| Runs.EscapeNeedsMargin | waf_runtime/activation.py:225-236 | an escape takes a section at least as long as the margin that the probe item must last |
| Runs.StepKeepsNamed | waf_runtime/activation.py:45-101 | unless its error escapes over a rendering that the metadata does not name, or a kill can cut one off in place, a section keeps a non-empty selected file the one that authoritative metadata names |
| Runs.EscapedNameIff | waf_runtime/activation.py:74-81 | a completed activation can lose the name if and only if it can escape and the old metadata does not name these bytes |
| Runs.KilledNameIff | waf_runtime/activation.py:59-70 | a killed section can lose the name if and only if it puts a rendering in place that the metadata does not name |
| Runs.RunKeepsNamed | waf_runtime/activation.py:45-101 | the name is kept over every run without such an escape or kill |
| Runs.RunInTimeKeepsNamed | waf_runtime/activation.py:225-236 | in particular when no section lasts as long as its margin and none is killed |
| Runs.CanStrandIff | waf_runtime/activation.py:183-201 | a failed rollback can leave a false record if and only if a non-empty rendering was attempted over a confirmed empty record |
| Runs.KilledRecordIff | waf_runtime/activation.py:59-88 | a killed section can leave a false record if and only if an activation may roll back to a confirmed file, or the rendering is recorded as confirmed and not served; a kill while emptying never does |
| Runs.StepKeepsServed | waf_runtime/activation.py:45-101 | without such a failed rollback or kill a confirmed record names what NGINX serves, successful activations included |
| Runs.SmoothIsSteady | waf_runtime/activation.py:45-88 | in particular no section is excluded whose activation rollback did not fail, whose error did not escape and which was not killed |
| Runs.RunKeepsServed | waf_runtime/activation.py:183-223 | over every run without such failed rollbacks, escapes and kills, a confirmed record names what NGINX serves |
| Runs.EmptyAnswerIsServed | waf_runtime/reconcile.py:26-43 | in such runs an answer of an empty kind means that NGINX serves no block |
| Runs.StepAdvances | waf_runtime/activation.py:162-181 | from authoritative to authoritative a section keeps revision, state and file or raises the revision |
| Runs.DryRunsByRevision | waf_runtime/reconcile.py:62-68 | the same three answers, exactly, of a dry run |
| Runs.KeepingEmptyIsIdempotent | waf_runtime/reconcile.py:26-43 | a confirmed empty state is answered again without touching files or NGINX |
| Runs.StartupIsNotTrusted | waf_runtime/state.py:126-149 | what startup leaves is trusted under no kind: the first such answer has NGINX confirm the file |
| Runs.RunNeverGoesBack | waf_runtime/activation.py:162-181 | while the kind stays authoritative revisions never go back and one revision names one state |
| Runs.RestartedRunIsSafe | waf_runtime/entrypoint.py:11-20 | from whatever a crash leaves, startup and every run after it keep metadata sound, and latch, selection and record right as long as no section ends in one of these failures |
| Witnesses.EscapeLosesTheName | waf_runtime/activation.py:74-81 | a concrete run in which a block stays selected under `pending_empty` metadata |
| Witnesses.EnableHidesABlock | waf_runtime/controls.py:29-45 | the two sections of one enable after which `pending_empty` is reported while NGINX serves a block |
| Witnesses.OldRecordFoolsTheLatch | waf_runtime/reconcile.py:35-43 | a run of enforce-mode processes in which `disabled_empty` is answered over a set latch while NGINX serves a block |
| Witnesses.KilledDisableLeavesABlock | waf_runtime/controls.py:22-26 | a disable killed after its first write leaves the latch set over the block of a healthy, authoritative instance |
| Witnesses.NegativeCutoffMisleads | waf_runtime/nginx.py:226-239 | a validated snapshot with two expired items whose probe rule is the one that expired in 1969 |
| Witnesses.AbandonedLeaseIsLost | migrations/versions/20260710_000009_notification_outbox_v61.py:182-187 | a run in which a row with one attempt is claimed and can never be claimed again |
| Witnesses.TailIsConsumedAsALine | scripts/waf_audit_bridge.py:1092-1094 | a log followed from its end whose next line is consumed without its beginning |
| Controls.PrepareStartupState | waf_runtime/entrypoint.py:11-20 | the empty file under the kind that latch and mode ask for, from any crash point |
| Controls.Reconciler.DryRunSection | waf_runtime/reconcile.py:62-82 | decides, or selects empty without a reload after NGINX accepted the rendering, or raises with the state as it was |
| Controls.Reconciler.ReconcileFetched | waf_runtime/reconcile.py:44-85 | the comparison answers and changes nothing, or others act and then the section is a dry run exactly in dry-run mode and an activation otherwise; kinds by mode, the reported kind on disk, `no_change` true |
| Controls.Reconciler.Reconcile | waf_runtime/reconcile.py:25-85 | the whole call by mode and latch: the off section, the latched section, or fetch, comparison and acting section, with other processes acting between |
| Controls.WafControls.Disable | waf_runtime/controls.py:21-27 | latch set and empty file selected even when NGINX fails; on success NGINX serves it |
| Controls.WafControls.Enable | waf_runtime/controls.py:29-45 | the latch is cleared and the empty file selected first, then the reconciliation runs, and what is reported of it; the reported kind was on disk at some moment of the call when the lock was free |
| UnionFind.UnionFind.Find | data/clean_907k.py:161-168 | no representative changes while pointers are halved; at most half the root's rank, rounded up, many iterations, and 2^rank is at most the number of keys |
| UnionFind.UnionFind.Union | data/clean_907k.py:170-179 | exactly the two classes become one |
| UnionFind.UnionFind.Link | data/clean_907k.py:174-179 | hanging one root under another keeps ranks rising and a root of rank k owning 2^k elements |
| Clusters.ClassesAreComponents | data/clean_907k.py:361-371 | same representative if and only if a chain of candidate pairs connects the keys |
| Clusters.MergeKeepsComponents | data/clean_907k.py:363-365 | merging the classes of a pair is adding the pair as an edge |
| Clusters.BuildClusters | data/clean_907k.py:359-371 | cluster ids agree if and only if a chain of candidate pairs connects the keys |
| Capping.SampleFits | data/clean_907k.py:428-428 | no label is asked for more rows than it has, nor for none |
| Capping.HalfGoesToEven | data/clean_907k.py:428-428 | a share halfway between two integers is rounded to the even one |
| Capping.SampleIsFair | data/clean_907k.py:428-428 | a label is asked for its exact share within half a row, and for more only when that would be nothing |
| Capping.SampleCluster | data/clean_907k.py:425-434 | rows of the cluster, of every label its fair share, at most MAX_CLUSTER_SIZE+L-1 and at least MAX_CLUSTER_SIZE-L/2 rows for L labels |
| Capping.CapClusters | data/clean_907k.py:418-437 | every small cluster kept whole, every oversized one stratified, and the reported number of dropped rows right |
| Outbox.OutboxTable.ClaimBatch | migrations/versions/20260710_000009_notification_outbox_v61.py:168-204 | the first eligible rows in order up to the limit, none skipped while there is room, each leased with one attempt more, all others unchanged |
| Outbox.BatchIsByDueTime | migrations/versions/20260710_000009_notification_outbox_v61.py:188-190 | a batch lists its rows by due time, creation and id, and passes over no row that comes before one of its own |
| Outbox.OutboxTable.Complete | migrations/versions/20260710_000009_notification_outbox_v61.py:226-236 | true if and only if the row is leased to this worker; otherwise nothing changes |
| Outbox.OutboxTable.Fail | migrations/versions/20260710_000009_notification_outbox_v61.py:260-281 | retried or final for the lease holder only, with each error case exact |
| OutboxRuns.NextKeepsInv | migrations/versions/20260710_000009_notification_outbox_v61.py:178-281 | every step, the insertion of a job included, keeps the invariant, and a step that changes a row lowers 2*(max_attempts-attempts)+[leased] |
| OutboxRuns.RunKeepsInv | migrations/versions/20260710_000009_notification_outbox_v61.py:178-281 | the invariant holds over every run by any number of workers while jobs are enqueued |
| OutboxRuns.LeaseExclusion | migrations/versions/20260710_000009_notification_outbox_v61.py:184-197 | a later claim of a row comes at or after the earlier lease's expiry, or after that lease was settled for a retry that has become due |
| OutboxRuns.BatchesAreDisjoint | migrations/versions/20260710_000009_notification_outbox_v61.py:188-190 | claims in flight at the same time hold different rows |
| OutboxRuns.SettledAtMostOnce | migrations/versions/20260710_000009_notification_outbox_v61.py:229-234 | each claim is settled at most once, by its worker, and nothing follows a final outcome |
| OutboxRuns.StepsAreBounded | migrations/versions/20260710_000009_notification_outbox_v61.py:182-194 | attempts stay within the maximum, at most 2*max_attempts effective steps, waiting for a retry means attempts remain |
| OutboxRuns.LateSettlementIsIgnored | migrations/versions/20260710_000009_notification_outbox_v61.py:266-281 | a settlement by a worker whose row was reclaimed under another id changes nothing |
| OutboxRuns.StuckForever | migrations/versions/20260710_000009_notification_outbox_v61.py:182-187 | in every continuation in which the holder settles nothing, such a lease stays unchanged and nobody selects it |
| OutboxRuns.StuckLease | migrations/versions/20260710_000009_notification_outbox_v61.py:182-187 | in every run, a lease that its holder abandons can be claimed by no continuation if and only if no attempt or no expiry is left |
| OutboxRuns.WaitingJobIsReclaimable | migrations/versions/20260710_000009_notification_outbox_v61.py:182-187 | in every run, a pending job and a job waiting for a retry can be claimed |
| OutboxRuns.FinalForever | migrations/versions/20260710_000009_notification_outbox_v61.py:229-279 | in every run, a sent or permanently failed job stays exactly as it is |
| OutboxRuns.UnretryableIsFinal | migrations/versions/20260710_000009_notification_outbox_v61.py:266-279 | a failure that is not retryable, or on the last attempt, is permanent and records its class |
| OutboxRuns.RetryWaitsItsDelay | migrations/versions/20260710_000009_notification_outbox_v61.py:271-275 | no claim follows a retryable failure before its time plus its delay |
| OutboxRuns.ClaimCallIsTwoSteps | migrations/versions/20260710_000009_notification_outbox_v61.py:178-204 | whatever a claim call does is a selection followed by a commit of the transition system |
| OutboxRuns.CompleteCallIsAStep | migrations/versions/20260710_000009_notification_outbox_v61.py:226-236 | whatever a complete call does is one step of the transition system |
| OutboxRuns.FailCallIsAStep | migrations/versions/20260710_000009_notification_outbox_v61.py:260-281 | whatever a fail call does is one step of the transition system |
| DedupCache.RecencyIsOrdered | scripts/waf_audit_bridge.py:78-84 | moving re-added ids to the back keeps the entries distinct and in order of time |
| DedupCache.RecencyPosition | scripts/waf_audit_bridge.py:78-84 | a place in the recency order is the last add of its id, followed by exactly the ids added since |
| DedupCache.CachedIsMember | scripts/waf_audit_bridge.py:73-76 | a pruned bounded cache holds an id if and only if the full history makes it a member |
| DedupCache.AddKeepsCached | scripts/waf_audit_bridge.py:78-84 | what is dropped stays dropped for a reason: expired, or enough entries behind it |
| DedupCache.TransactionDedupCache.Prune | scripts/waf_audit_bridge.py:66-71 | popping expired entries from the front equals filtering all of them |
| DedupCache.TransactionDedupCache.Contains | scripts/waf_audit_bridge.py:73-76 | true if and only if the id's last add is younger than the TTL and among the max_entries most recent distinct ids |
| DedupCache.TransactionDedupCache.Add | scripts/waf_audit_bridge.py:78-84 | one more entry in the full history that the cache stands for |
| Bridge.ProcessEventLine | scripts/waf_audit_bridge.py:840-949 | duplicate, probe, rejected, failed or posted, as the full history of posts decides, and what is remembered |
| Bridge.SpacesAre | scripts/waf_audit_bridge.py:816-818 | exactly the characters that strip() removes make a line blank |
| Bridge.BlankIff | scripts/waf_audit_bridge.py:816-818 | a line is blank if and only if all its characters are such |
| Bridge.RunBridge | scripts/waf_audit_bridge.py:796-837 | the counters are counts over the run, total is posted plus failed plus skipped, and all posts keep their distance |
| Bridge.EveryLineIsCounted | scripts/waf_audit_bridge.py:815-837 | every line meets exactly one verdict, and the posts are the lines that were posted |
| Bridge.PostsKeepDistance | scripts/waf_audit_bridge.py:883-907 | two posts of one id are a TTL apart, or at least max_entries distinct other ids were posted between |
| Bridge.UnfailedEventIsDelivered | scripts/waf_audit_bridge.py:883-907 | an event that does not fail was delivered, by its own post or one less than a TTL earlier |
| Follower.LinesAreComplete | scripts/waf_audit_bridge.py:1131-1138 | a text has one split into lines, so consumed lines are known by their text |
| Follower.CompleteLinesSplit | scripts/waf_audit_bridge.py:1131-1138 | the complete lines and a partial rest are the whole text |
| Follower.AppendKeepsLines | scripts/waf_audit_bridge.py:1131-1138 | what is appended later never changes the lines already complete |
| Follower.StartCutsNoLineIff | scripts/waf_audit_bridge.py:1092-1096 | a start point cuts no line in two if and only if it stands at the beginning of one |
| Follower.FollowHandle | scripts/waf_audit_bridge.py:1106-1160 | polling one handle, through partial lines, idle polls and read errors, keeps the consumed lines equal to the log from the start point to the position; every poll that consumes nothing had no complete line before it |
| Follower.FollowBridge | scripts/waf_audit_bridge.py:1077-1162 | under any schedule of appends, failures and reopens: the consumed lines are exactly the complete lines of the log between start and position, every round that meets no failure, reopening or quiet log consumes one, the counters are those of a bridge run over them, and an idle stop leaves nothing unread |

## Left out

- HTTP, sockets, subprocesses, signals, fsync, process supervision and logging: only their outcomes appear, as arbitrary answers.
- Timestamp parsing: a parameter from texts to milliseconds or nothing; every theorem holds for every such function.
- Snapshots.ValidateSnapshot: starts from decoded fields of the right type, so that JSON parsing and the field-name and type checks are left out, and gives one answer for all faults of the header.
- SHA-256 collisions, and which twelve digits of a digest go into a file name (an arbitrary function).
- Corrupted or missing metadata files and their repair in `read_metadata`, and failing file writes.
- Store.CandidateStateStore.PruneCandidates: which candidate is the most recent is arbitrary, because file times are not part of the model.
- Nginx.NginxController.ReloadAndConfirm: does not model worker generations and readiness polling; they are one arbitrary answer.
- Nginx.NginxController.ProbeEmpty: does not model its request; the comparison with the selected file, which its callers pass, always succeeds.
- Nginx.NginxController.ProbeCandidate: does not model its requests one by one; the audit-log polling and its tokens, the `_candidate_tag` fallbacks and the separate request answers are one arbitrary answer.
- The `status` command, which only reads, and steps of the wall clock backwards within one section.
- IPv6, which validation refuses.
- The rest of the ModSecurity language: the semantics knows the variables and operators that the renderer prints; the phase, the `t:none` transformation and the log actions are parsed but mean nothing to it.
- Capping.SampleFits: exact rationals instead of the floating-point `count / len(group) * MAX_CLUSTER_SIZE`.
- Capping.SampleCluster: which rows pandas samples is known only to be a sample of the asked size, and the labels are listed in one fixed order instead of by frequency; the theorem depends on neither.
- MinHash and LSH: the hits of a query are an arbitrary function of the key.
- Outbox columns that the three functions only return, roles and grants, and later migrations.
- Decoding and normalising a line, and posting with its retries and delays: arbitrary values carried by the arrival.
- Follower.FollowBridge: text decoding, carriage returns as line ends, and truncated or rotated logs; the stop signal comes after an arbitrary number of polls.
- The normal-access socket receiver, which has no position to keep and shares `ProcessEventLine`.
