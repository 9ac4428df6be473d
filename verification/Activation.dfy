/** ActivationManager: the transaction that puts a snapshot in force and rolls it back. */
module Activation {
  import opened Wrappers
  import CanonicalJson
  import Text
  import Items
  import opened Snapshots
  import opened Render
  import opened Store
  import opened Nginx
  import opened Protocol
  import ReadBack

  class ActivationManager {
    const store: CandidateStateStore
    const nginx: NginxController

    constructor (store: CandidateStateStore, nginx: NginxController)
      requires nginx.store == store
      ensures this.store == store && this.nginx == nginx
    {
      this.store := store;
      this.nginx := nginx;
    }

    ghost predicate Ready()
      reads this, store
    {
      nginx.store == store && store.Durable()
    }

    function RevisionDecision(s: Snapshot): Option<Answer>
      reads this, store
    {
      Decision(store.metadata, store.selected, s)
    }

    /** Validate, reload and probe the selected empty file; false is its ActivationError. */
    method ConfirmEmpty() returns (ok: bool)
      requires Ready() && store.selected == EMPTY
      modifies store
      ensures Ready() && store.candidates == old(store.candidates)
      ensures Through(old(store.Now()), old(store.trace), store.trace, {Here(old(store.Now()))})
      ensures store.Now() == old(store.Now()).(running := store.running, confirmed := store.confirmed)
      ensures store.running == old(store.running) || store.running == EMPTY
      ensures old(store.confirmed) <= store.confirmed <= old(store.confirmed) + {EMPTY}
      ensures ok ==> store.running == EMPTY && EMPTY in store.confirmed
      ensures old(store.validated) <= store.validated && (ok ==> EMPTY in store.validated)
      ensures store.mishaps == old(store.mishaps) + if ok then 0 else 1
    {
      ok := nginx.ValidateCandidate(store.selected);
      if ok {
        ok := nginx.ReloadAndConfirm();
      }
      if ok {
        ok := nginx.ProbeEmpty();
      }
    }

    /** Select the empty file and have it confirmed, trying twice; false is RollbackError. */
    method TransitionToEmpty() returns (ok: bool)
      requires Ready()
      modifies store
      ensures Ready() && Through(old(store.Now()), old(store.trace), store.trace, Emptying(old(store.Now())))
      ensures store.Now() == old(store.Now()).(selected := EMPTY, previous := store.previous,
                                               running := store.running, confirmed := store.confirmed)
      ensures store.running == old(store.running) || store.running == EMPTY
      ensures old(store.confirmed) <= store.confirmed <= old(store.confirmed) + {EMPTY}
      ensures ok ==> store.running == EMPTY && EMPTY in store.confirmed
      ensures old(store.validated) <= store.validated && (ok ==> EMPTY in store.validated)
      ensures old(store.mishaps) <= store.mishaps
      ensures if ok then store.mishaps <= old(store.mishaps) + 1 else store.mishaps == old(store.mishaps) + 2
    {
      ok := SelectEmptyAndConfirm();
      if !ok {
        ghost var mid, between := store.Now(), store.trace;
        ok := SelectEmptyAndConfirm();
        ThroughBoth(old(store.Now()), old(store.trace), between, mid, Emptying(old(store.Now())),
                    store.trace, Emptying(mid), Emptying(old(store.Now())));
      }
    }

    /** One attempt: select the empty file and have it confirmed. */
    method SelectEmptyAndConfirm() returns (ok: bool)
      requires Ready()
      modifies store
      ensures Ready() && Through(old(store.Now()), old(store.trace), store.trace, Emptying(old(store.Now())))
      ensures store.Now() == old(store.Now()).(selected := EMPTY, previous := store.previous,
                                               running := store.running, confirmed := store.confirmed)
      ensures store.running == old(store.running) || store.running == EMPTY
      ensures old(store.confirmed) <= store.confirmed <= old(store.confirmed) + {EMPTY}
      ensures ok ==> store.running == EMPTY && EMPTY in store.confirmed
      ensures old(store.validated) <= store.validated && (ok ==> EMPTY in store.validated)
      ensures store.mishaps == old(store.mishaps) + if ok then 0 else 1
    {
      hide Through;
      var _ := store.SelectCandidate(EmptyFile, None);
      ghost var mid, between := store.Now(), store.trace;
      ok := ConfirmEmpty();
      ThroughBoth(old(store.Now()), old(store.trace), between, mid, {Here(old(store.Now())), Here(mid)},
                  store.trace, {Here(mid)}, Emptying(old(store.Now())));
    }

    method WriteEmptyMetadata(kind: Kind)
      requires Ready() && kind != Authoritative
      modifies store
      ensures Ready() && store.trace == old(store.trace) + [store.Now()]
      ensures store.metadata.selectedAt.Some?
      ensures store.Now() == old(store.Now()).(metadata := EmptyMetadata(kind, store.metadata.selectedAt))
      ensures store.validated == old(store.validated)
      ensures store.mishaps == old(store.mishaps)
    {
      var at: real := *;
      store.WriteMetadata(EmptyMetadata(kind, Some(at)));
    }

    method DeactivateEmpty(kind: Kind) returns (r: Outcome)
      requires Ready() && kind != Authoritative
      modifies store
      ensures Ready() && Through(old(store.Now()), old(store.trace), store.trace, Emptying(old(store.Now())))
      ensures Deactivates(old(store.Now()), kind, r, store.Now())
      ensures r.Returned? ==> store.selected in store.validated
      ensures old(store.mishaps) <= store.mishaps && (r.Raised? ==> store.mishaps >= old(store.mishaps) + 2)
    {
      hide Through, SoundMetadata;
      var ok := TransitionToEmpty();
      if !ok {
        return Raised(RollbackError);
      }
      ghost var mid, between := store.Now(), store.trace;
      WriteEmptyMetadata(kind);
      ThroughWrite(mid, between, store.trace);
      ThroughBoth(old(store.Now()), old(store.trace), between, mid, Emptying(old(store.Now())),
                  store.trace, {Here(mid)}, Emptying(old(store.Now())));
      return Returned(Selected(kind));
    }

    method WriteAuthoritativeMetadata(s: Snapshot, file: Digest, probe: Option<Probe>)
      requires Ready()
      requires Valid(store.epoch, s)
      requires file == Sha256(SnapshotContent(store.epoch, s)) && file.preimage in store.confirmed
      modifies store
      ensures Ready() && store.trace == old(store.trace) + [store.Now()]
      ensures store.Now() == old(store.Now()).(metadata := store.metadata)
      ensures Commits(store.epoch, s, probe, store.metadata)
      ensures store.validated == old(store.validated)
      ensures store.mishaps == old(store.mishaps)
    {
      var at: real := *;
      var m := Metadata(Authoritative, Some(s.revision), Some(s.stateChecksum), file, Some(at), probe);
      assert Describes(store.epoch, s, m);
      store.WriteMetadata(m);
    }

    method ActivateAuthoritativeEmpty(s: Snapshot) returns (r: Outcome)
      requires Ready() && Valid(store.epoch, s) && s.items == []
      modifies store
      ensures Ready() && Through(old(store.Now()), old(store.trace), store.trace, Emptying(old(store.Now())))
      ensures ActivatesEmpty(store.epoch, old(store.Now()), s, r, store.Now())
      ensures r.Returned? ==> store.selected in store.validated
      ensures old(store.mishaps) <= store.mishaps && (r.Raised? ==> store.mishaps >= old(store.mishaps) + 2)
    {
      hide Through, SoundMetadata, Content;
      var ok := TransitionToEmpty();
      if !ok {
        return Raised(RollbackError);
      }
      EmptyRendering(store.epoch, s);
      ghost var mid, between := store.Now(), store.trace;
      WriteAuthoritativeMetadata(s, Sha256(EMPTY), None);
      ThroughWrite(mid, between, store.trace);
      ThroughBoth(old(store.Now()), old(store.trace), between, mid, Emptying(old(store.Now())),
                  store.trace, {Here(mid)}, Emptying(old(store.Now())));
      return Returned(Selected(Authoritative));
    }

    /** Validate, reload and probe the selected file as the metadata's kind asks for. */
    method ConfirmSelected(m: Metadata, until: real) returns (ok: bool)
      requires Ready()
      modifies store
      ensures Ready() && Through(old(store.Now()), old(store.trace), store.trace, {Here(old(store.Now()))})
      ensures store.Now() == old(store.Now()).(running := store.running, confirmed := store.confirmed)
      ensures old(store.confirmed) <= store.confirmed <= old(store.confirmed) + {store.selected}
      ensures store.running == old(store.running) || store.running == store.selected
      ensures ok ==> store.running == store.selected
      ensures old(store.validated) <= store.validated && (ok ==> store.selected in store.validated)
      ensures ok && m.kind == Authoritative ==>
        exists at :: at <= until.Floor && ReadBack.ProbeRule(store.selected, at).Some?
      ensures old(store.mishaps) <= store.mishaps && (ok ==> store.mishaps == old(store.mishaps))
      ensures store.mishaps == old(store.mishaps) && !Lapses(m, until, store.selected) ==> ok
    {
      ok := nginx.ValidateCandidate(store.selected);
      if ok {
        ok := nginx.ReloadAndConfirm();
      }
      if ok {
        if m.kind == Authoritative {
          var p := nginx.ProbeCandidate(store.selected, until);
          ok := p.Passed?;
        } else {
          ok := nginx.ProbeEmpty();
        }
      }
    }

    /** Back to the previous file and metadata, or else to a pending empty one; false is RollbackError. */
    method RestorePrevious(m: Metadata, until: real) returns (ok: bool)
      requires Ready() && m == store.metadata
      modifies store
      ensures Ready() && Through(old(store.Now()), old(store.trace), store.trace, Restoring(old(store.Now())))
      ensures store.disabled == old(store.disabled)
      ensures old(store.confirmed) <= store.confirmed <= old(store.confirmed) + KnownFiles(old(store.Now()))
      ensures store.running == old(store.running) || store.running in Previous(old(store.Now())) + {EMPTY}
      ensures ok ==>
        || (&& Some(store.selected) == old(store.previous) && store.metadata == m && store.running == store.selected)
        || PendingEmptied(old(store.Now()), store.Now())
      ensures !ok ==> store.selected == EMPTY && store.metadata == m
      ensures old(store.validated) <= store.validated && (ok ==> store.selected in store.validated)
      ensures old(store.mishaps) <= store.mishaps && (!ok ==> store.mishaps > old(store.mishaps))
      ensures
        && store.mishaps == old(store.mishaps) && old(store.previous).Some?
        && !Lapses(m, until, old(store.previous).value) ==>
          Some(store.selected) == old(store.previous) && store.metadata == m && store.running == store.selected
    {
      hide EMPTY, Through, SoundMetadata;
      ghost var points := Restoring(store.Now());
      var restored := RestoreAndConfirm(m, until);
      if restored {
        return true;
      }
      ghost var mid, between := store.Now(), store.trace;
      ok := FallBackToEmpty();
      ThroughBoth(old(store.Now()), old(store.trace), between, mid, points, store.trace, Emptying(mid), points);
    }

    /** The second half of the rollback: the empty file, confirmed and marked pending. */
    method FallBackToEmpty() returns (ok: bool)
      requires Ready()
      modifies store
      ensures Ready() && Through(old(store.Now()), old(store.trace), store.trace, Emptying(old(store.Now())))
      ensures old(store.confirmed) <= store.confirmed <= old(store.confirmed) + {EMPTY}
      ensures store.running == old(store.running) || store.running == EMPTY
      ensures ok ==> PendingEmptied(old(store.Now()), store.Now())
      ensures !ok ==> store.selected == EMPTY && store.metadata == old(store.metadata)
      ensures store.disabled == old(store.disabled)
      ensures old(store.validated) <= store.validated && (ok ==> store.selected in store.validated)
      ensures store.mishaps == old(store.mishaps) + if ok then 0 else 1
    {
      hide EMPTY, Through, SoundMetadata;
      ok := SelectEmptyAndConfirm();
      if ok {
        ghost var mid, between := store.Now(), store.trace;
        WriteEmptyMetadata(PendingEmpty);
        ThroughWrite(mid, between, store.trace);
        ThroughBoth(old(store.Now()), old(store.trace), between, mid, Emptying(old(store.Now())),
                    store.trace, {Here(mid)}, Emptying(old(store.Now())));
      }
    }

    /** The first half of the rollback: the previous file, confirmed again under its metadata. */
    method RestoreAndConfirm(m: Metadata, until: real) returns (ok: bool)
      requires Ready() && m == store.metadata
      modifies store
      ensures Ready() && Through(old(store.Now()), old(store.trace), store.trace, Restoring(old(store.Now())))
      ensures store.Now() == old(store.Now()).(selected := store.selected, running := store.running,
                                               confirmed := store.confirmed)
      ensures old(store.confirmed) <= store.confirmed <= old(store.confirmed) + Previous(old(store.Now()))
      ensures store.selected == if old(store.previous).Some? then old(store.previous).value else old(store.selected)
      ensures store.running == old(store.running) || store.running in Previous(old(store.Now()))
      ensures ok ==> old(store.previous).Some? && store.running == store.selected
      ensures old(store.validated) <= store.validated && (ok ==> store.selected in store.validated)
      ensures old(store.mishaps) <= store.mishaps && (ok ==> store.mishaps == old(store.mishaps))
      ensures
        store.mishaps == old(store.mishaps) && old(store.previous).Some? && !Lapses(m, until, store.selected) ==> ok
    {
      hide EMPTY, Through, SoundMetadata;
      ghost var points := Restoring(store.Now());
      var restored := store.RestorePrevious();
      if !restored {
        ThroughMore(old(store.Now()), old(store.trace), store.trace, {Here(store.Now())}, points);
        return false;
      }
      ghost var mid, between := store.Now(), store.trace;
      ok := ConfirmSelected(m, until);
      ThroughBoth(old(store.Now()), old(store.trace), between, mid, {Here(mid)}, store.trace, {Here(mid)}, points);
      if ok {
        mid, between := store.Now(), store.trace;
        store.WriteMetadata(m);
        ThroughWrite(mid, between, store.trace);
        ThroughBoth(old(store.Now()), old(store.trace), between, mid, points, store.trace, {Here(mid)}, points);
      }
    }

    /** _probe_item at the given clock. */
    method ProbeItem(s: Snapshot, clock: real) returns (r: Option<Items.Item>)
      ensures s.items == [] ==> r.None?
      ensures s.items != [] ==>
        r == if LongEnough(store.epoch, s.items, clock, RequiredSeconds(nginx.timeout))
             then Some(LatestItem(store.epoch, s.items)) else None
    {
      if s.items == [] {
        return None;
      }
      var latest := LatestItem(store.epoch, s.items);
      if Items.Cutoff(store.epoch, latest) as real - clock < RequiredSeconds(nginx.timeout) as real {
        return None;
      }
      return Some(latest);
    }

    function FileName(s: Snapshot): string {
      "candidate-" + Text.IntText(s.revision) + "-" + store.prefix12(s.stateChecksum) + ".conf"
    }

    /** Candidates of different revisions, or of one revision and different digest prefixes, have different names. */
    lemma NamesTellSnapshots(s: Snapshot, s': Snapshot)
      requires FileName(s) == FileName(s')
      ensures s.revision == s'.revision && store.prefix12(s.stateChecksum) == store.prefix12(s'.stateChecksum)
    {
      var p, p' := store.prefix12(s.stateChecksum), store.prefix12(s'.stateChecksum);
      var rest, rest' := "-" + p + ".conf", "-" + p' + ".conf";
      assert "candidate-" + Text.IntText(s.revision) + "-" + p + ".conf"
          == "candidate-" + (Text.IntText(s.revision) + rest);
      assert "candidate-" + Text.IntText(s'.revision) + "-" + p' + ".conf"
          == "candidate-" + (Text.IntText(s'.revision) + rest');
      CanonicalJson.SamePrefix("candidate-", Text.IntText(s.revision) + rest, Text.IntText(s'.revision) + rest');
      CanonicalJson.IntDetermined(s.revision, rest, s'.revision, rest');
      assert p == rest[1..|rest| - 5] && p' == rest'[1..|rest'| - 5];
    }

    /** A digest prefix without a slash makes a name that the store takes. */
    lemma NameIsTaken(s: Snapshot)
      requires '/' !in store.prefix12(s.stateChecksum)
      ensures store.CandidateName(FileName(s))
    {
      Text.NumberLacks(s.revision, '/');
      var name := FileName(s);
      assert name == ("candidate-" + Text.IntText(s.revision) + "-" + store.prefix12(s.stateChecksum)) + ".conf";
      assert name[|name| - 5..] == ".conf";
      assert name[..10] == "candidate-";
    }

    /** Write the candidate and have NGINX validate it; the state is as it was either way. */
    method WriteAndValidate(name: string, content: string) returns (written: bool, valid: bool)
      requires Ready()
      modifies store
      ensures Ready() && store.Now() == old(store.Now())
      ensures Through(old(store.Now()), old(store.trace), store.trace,
                      {Here(store.Now()), Point(content, store.running)})
      ensures !written <==>
        || !store.CandidateName(name)
        || (name in old(store.candidates) && old(store.candidates)[name] != content)
      ensures written ==> name in store.candidates && store.candidates[name] == content
      ensures old(store.validated) <= store.validated && (valid ==> written && content in store.validated)
      ensures store.mishaps == old(store.mishaps) + if written && !valid then 1 else 0
    {
      hide EMPTY, Through, SoundMetadata, CandidateStateStore.CandidateName;
      ghost var a, start := store.Now(), store.trace;
      ghost var points := {Here(a), Point(content, a.running)};
      ThroughWrite(a, start, start);
      ThroughMore(a, start, start, {Here(a)}, points);
      var result := store.WriteCandidate(name, content);
      if result != Written {
        return false, false;
      }
      written := true;
      valid := nginx.ValidateCandidate(store.candidates[name]);
      ThroughMore(a, start, store.trace, {Point(content, a.running), Here(a)}, points);
    }

    /** Compare the checksum of the candidate, then select its bytes if they still have it. */
    method SelectChecked(name: string, candidate: RenderedCandidate)
      returns (stopped: Option<Failure>, ghost checked: string)
      requires Ready() && candidate.checksum == Sha256(candidate.content)
      requires name in store.candidates && store.candidates[name] == candidate.content
      modifies store
      ensures Ready()
      ensures Through(old(store.Now()), old(store.trace), store.trace, {Here(old(store.Now())), Here(store.Now())})
      ensures match stopped
        case None =>
          && store.Now() == old(store.Now()).(selected := candidate.content, previous := Some(old(store.selected)))
          && name in store.candidates && store.candidates[name] == candidate.content
        case Some(ActivationError) => checked != candidate.content && store.Now() == old(store.Now())
        case Some(CandidateChanged) => checked == candidate.content && store.Now() == old(store.Now())
        case Some(_) => false
      ensures store.validated == old(store.validated)
      ensures old(store.mishaps) <= store.mishaps && (stopped.Some? ==> store.mishaps > old(store.mishaps))
    {
      hide EMPTY, Through, SoundMetadata;
      ThroughWrite(store.Now(), store.trace, store.trace);
      ThroughMore(store.Now(), store.trace, store.trace, {Here(store.Now())}, {Here(store.Now()), Here(store.Now())});
      store.OutsideWrite(name);
      checked := store.candidates[name];
      if Sha256(store.candidates[name]) != candidate.checksum {
        return Some(ActivationError), checked;
      }
      store.OutsideWrite(name);
      var selected := store.SelectCandidate(CandidateFile(name), Some(candidate.checksum));
      return if selected then None else Some(CandidateChanged), checked;
    }

    /**
     * Write, validate and select the candidate; Some is the failure that stopped it, before
     * anything was selected. Others may rewrite the file at any moment after validation;
     * `checked` are its bytes when the checksum is compared.
     */
    method SelectRendered(name: string, candidate: RenderedCandidate)
      returns (stopped: Option<Failure>, ghost checked: string)
      requires Ready() && candidate.checksum == Sha256(candidate.content)
      modifies store
      ensures Ready()
      ensures Through(old(store.Now()), old(store.trace), store.trace,
                      {Here(old(store.Now())), Point(candidate.content, store.running)})
      ensures stopped.Some? ==> store.Now() == old(store.Now())
      ensures stopped.Some? ==> stopped.value in {CandidateRefused, ActivationError, CandidateChanged}
      ensures stopped.None? ==> name in store.candidates && store.candidates[name] == candidate.content
      ensures stopped.None? ==>
        store.Now() == old(store.Now()).(selected := candidate.content, previous := Some(old(store.selected)))
      ensures old(store.validated) <= store.validated
      ensures stopped == Some(CandidateRefused) <==>
        || !store.CandidateName(name)
        || (name in old(store.candidates) && old(store.candidates)[name] != candidate.content)
      ensures stopped.None? || stopped == Some(CandidateChanged) ==> candidate.content in store.validated
      ensures stopped == Some(CandidateChanged) ==> checked == candidate.content
      ensures old(store.mishaps) <= store.mishaps
      ensures stopped.Some? && stopped != Some(CandidateRefused) ==> store.mishaps > old(store.mishaps)
    {
      hide EMPTY, Through, CandidateStateStore.CandidateName, CandidateStateStore.Durable;
      checked := "";
      ghost var points := {Here(store.Now()), Point(candidate.content, store.running)};
      var written, valid := WriteAndValidate(name, candidate.content);
      if !written {
        return Some(CandidateRefused), checked;
      }
      if !valid {
        return Some(ActivationError), checked;
      }
      ghost var mid, between := store.Now(), store.trace;
      store.TraceEndsNow();
      stopped, checked := SelectChecked(name, candidate);
      ThroughBoth(old(store.Now()), old(store.trace), between, mid, points,
                  store.trace, {Here(mid), Here(store.Now())}, points);
    }

    /** Reload and probe the selected rendering; None is a confirmed one. */
    method ConfirmRendered(name: string, until: real) returns (stopped: Option<Failure>)
      requires Ready() && store.previous.Some?
      requires name in store.candidates && store.candidates[name] == store.selected
      modifies store
      ensures Ready() && Through(old(store.Now()), old(store.trace), store.trace, Confirming(old(store.Now())))
      ensures Settles(until, old(store.Now()), stopped, store.Now())
      ensures old(store.validated) <= store.validated
      ensures BlamesSelected(until, old(store.Now()), old(store.mishaps), stopped, store.Now(), store.mishaps)
    {
      hide EMPTY, Through, SoundMetadata, Settles, Confirming, ReadBack.ProbeRule, Lapses;
      ghost var a := store.Now();
      var reloaded := nginx.ReloadAndConfirm();
      if !reloaded {
        stopped := RollBack(until, a);
      } else {
        stopped := ProbeRendered(name, until, a);
      }
    }

    /** The probe of the rendering that NGINX has taken over from the state a. */
    method ProbeRendered(name: string, until: real, ghost a: View) returns (stopped: Option<Failure>)
      requires Ready() && a.previous.Some? && store.Now() == a.(running := a.selected)
      requires name in store.candidates && store.candidates[name] == store.selected
      modifies store
      ensures Ready() && Through(a, old(store.trace), store.trace, Confirming(a))
      ensures Settles(until, a, stopped, store.Now())
      ensures old(store.validated) <= store.validated
      ensures BlamesSelected(until, a, old(store.mishaps), stopped, store.Now(), store.mishaps)
    {
      hide EMPTY, Through, SoundMetadata, Settles, Confirming, ReadBack.ProbeRule, Lapses;
      ThroughNothing(a, store.trace);
      store.OutsideWrite(name);
      var answer := nginx.ProbeCandidate(store.candidates[name], until);
      match answer
      case ValueError(at) =>
        RaisedConfirms(until, a, at, store.Now());
        return Some(ProbeValueError(at));
      case Failed => stopped := RollBack(until, a);
      case Passed =>
        PassedConfirms(until, a, store.Now());
        return None;
    }

    lemma ThroughNothing(a: View, trace: seq<View>)
      ensures Through(a, trace, trace, Confirming(a))
    {
    }

    lemma RaisedConfirms(until: real, a: View, at: int, b: View)
      requires a.previous.Some? && b == a.(running := a.selected)
      requires at <= until.Floor && ReadBack.ProbeRule(a.selected, at).None?
      ensures Settles(until, a, Some(ProbeValueError(at)), b)
    {
      hide EMPTY, ReadBack.ProbeRule;
    }

    lemma PassedConfirms(until: real, a: View, b: View)
      requires a.previous.Some? && b == a.(running := a.selected, confirmed := a.confirmed + {a.selected})
      ensures Settles(until, a, None, b)
    {
      hide EMPTY, ReadBack.ProbeRule;
    }

    /** The rollback, and which of the two errors it ends in. */
    method RollBack(until: real, ghost a: View) returns (stopped: Option<Failure>)
      requires Ready() && a.previous.Some?
      requires store.Now() == a.(running := store.running)
      requires store.running == a.running || store.running == a.selected
      modifies store
      ensures Ready() && Through(a, old(store.trace), store.trace, Confirming(a))
      ensures stopped.Some? && Settles(until, a, stopped, store.Now())
      ensures old(store.validated) <= store.validated
      ensures old(store.mishaps) <= store.mishaps
      ensures store.mishaps == old(store.mishaps) && !Lapses(a.metadata, until, a.previous.value) ==>
        Restored(a.(selected := a.previous.value), store.Now())
    {
      ghost var points := Restoring(store.Now());
      var restored := RestorePrevious(store.metadata, until);
      ThroughMore(a, old(store.trace), store.trace, points, Confirming(a));
      return Some(if restored then ActivationError else RollbackError);
    }

    lemma ConfirmedParts(until: real, a: View, stopped: Option<Failure>, b: View)
      requires a.previous.Some? && Settles(until, a, stopped, b)
      ensures a.confirmed <= b.confirmed <= a.confirmed + {a.previous.value, a.selected, EMPTY}
      ensures stopped != Some(CandidateRefused) && stopped != Some(CandidateChanged)
      ensures stopped.None? ==> a.selected in b.confirmed && b == a.(running := a.selected, confirmed := b.confirmed)
    {
    }

    lemma NotSelected(until: real, a: View, s: Snapshot, f: Failure)
      requires s.items != [] && f in {CandidateRefused, ActivationError, CandidateChanged}
      ensures Transacts(store.epoch, until, a, s, Raised(f), a)
    {
      hide SnapshotContent, LatestItem;
    }

    /** Select the candidate and have it confirmed; Some is the failure that ended the section. */
    method PutInForce(s: Snapshot, candidate: RenderedCandidate, until: real) returns (stopped: Option<Failure>)
      requires Ready() && s.items != []
      requires candidate.content == SnapshotContent(store.epoch, s) && candidate.checksum == Sha256(candidate.content)
      modifies store
      ensures Ready()
      ensures Through(old(store.Now()), old(store.trace), store.trace, Attempting(old(store.Now()), candidate.content))
      ensures stopped.None? ==>
        && store.Now() == old(store.Now()).(selected := candidate.content, previous := Some(old(store.selected)),
                                            running := candidate.content, confirmed := store.confirmed)
        && candidate.content in store.confirmed
      ensures old(store.confirmed) <= store.confirmed
      ensures store.confirmed <= old(store.confirmed) + {candidate.content, old(store.selected), EMPTY}
      ensures stopped.Some? ==> Transacts(store.epoch, until, old(store.Now()), s, Raised(stopped.value), store.Now())
      ensures stopped.None? ==> candidate.content in store.validated
      ensures stopped == Some(CandidateRefused) <==>
        || !store.CandidateName(FileName(s))
        || (FileName(s) in old(store.candidates) && old(store.candidates)[FileName(s)] != candidate.content)
      ensures Blames(until, old(store.Now()), old(store.mishaps), stopped, store.Now(), store.mishaps)
    {
      hide EMPTY, Through, SnapshotContent, LatestItem, ReadBack.ProbeRule, SoundMetadata, Transacts, Settles,
        Confirming, FileName, CandidateStateStore.CandidateName, Blames, BlamesSelected;
      AttemptParts(store.Now(), candidate.content);
      ghost var points := Attempting(store.Now(), candidate.content);
      var name := FileName(s);
      ghost var checked;
      stopped, checked := SelectRendered(name, candidate);
      ghost var rendering := Point(candidate.content, old(store.running));
      ThroughMore(old(store.Now()), old(store.trace), store.trace, {Here(old(store.Now())), rendering}, points);
      if stopped.Some? {
        NotSelected(until, old(store.Now()), s, stopped.value);
        NothingToBlame(until, store.Now(), old(store.mishaps), stopped, store.Now(), store.mishaps);
      } else {
        ghost var mid, between, mishaps := store.Now(), store.trace, store.mishaps;
        stopped := ConfirmRendered(name, until);
        ConfirmedParts(until, mid, stopped, store.Now());
        SelectedBlames(until, old(store.Now()), candidate.content, old(store.mishaps), mishaps, stopped, store.Now(),
                       store.mishaps);
        if stopped.Some? {
          StoppedTransacts(store.epoch, until, old(store.Now()), s, stopped.value, store.Now());
        }
        ThroughBoth(old(store.Now()), old(store.trace), between, mid, points, store.trace, Confirming(mid), points);
      }
    }

    lemma AttemptParts(v: View, content: string)
      ensures Here(v) in Attempting(v, content) && Point(content, v.running) in Attempting(v, content)
      ensures Point(content, content) in Attempting(v, content)
    {
    }

    lemma BlamesGrow(until: real, a: View, before: nat, stopped: Option<Failure>, b: View, after: nat)
      requires Blames(until, a, before, stopped, b, after)
      ensures before <= after
    {
    }

    /** The part of activate from writing the candidate on. */
    method Transact(s: Snapshot, candidate: RenderedCandidate, probe: Items.Item, until: real) returns (r: Outcome)
      requires Ready() && Valid(store.epoch, s) && s.items != []
      requires candidate.content == SnapshotContent(store.epoch, s) && candidate.checksum == Sha256(candidate.content)
      requires probe == LatestItem(store.epoch, s.items)
      modifies store
      ensures Ready()
      ensures Through(old(store.Now()), old(store.trace), store.trace, Attempting(old(store.Now()), candidate.content))
      ensures Transacts(store.epoch, until, old(store.Now()), s, r, store.Now())
      ensures r.Returned? ==> store.selected in store.validated
      ensures r == Raised(CandidateRefused) <==>
        || !store.CandidateName(FileName(s))
        || (FileName(s) in old(store.candidates) && old(store.candidates)[FileName(s)] != candidate.content)
      ensures r.Returned? ==> |store.candidates| <= 1
      ensures Blames(until, old(store.Now()), old(store.mishaps), FailureOf(r), store.Now(), store.mishaps)
    {
      hide EMPTY, Through, SnapshotContent, Valid, LatestItem, ReadBack.ProbeRule, SoundMetadata, FileName,
        CandidateStateStore.CandidateName, Blames;
      ghost var points := Attempting(store.Now(), candidate.content);
      var stopped := PutInForce(s, candidate, until);
      if stopped.Some? {
        return Raised(stopped.value);
      }
      ghost var mid, between := store.Now(), store.trace;
      WriteAuthoritativeMetadata(s, candidate.checksum, Some(Probe(probe.sourceIp, probe.recommendationId)));
      ThroughWrite(mid, between, store.trace);
      ThroughBoth(old(store.Now()), old(store.trace), between, mid, points, store.trace, {Here(mid)}, points);
      store.PruneCandidates();
      NothingToBlame(until, old(store.Now()), old(store.mishaps), None, store.Now(), store.mishaps) by {
        BlamesGrow(until, old(store.Now()), old(store.mishaps), stopped, mid, store.mishaps);
      }
      return Returned(Selected(Authoritative));
    }

    /** The part of activate on a snapshot that has to be acted on. */
    method ActOn(s: Snapshot, clock: real, until: real) returns (r: Outcome)
      requires Ready() && Valid(store.epoch, s) && !store.disabled && RevisionDecision(s).None?
      modifies store
      ensures Ready()
      ensures Through(old(store.Now()), old(store.trace), store.trace,
                      ActivationPoints(store.epoch, RequiredSeconds(nginx.timeout), clock, old(store.Now()), s))
      ensures Activates(store.epoch, RequiredSeconds(nginx.timeout), clock, until, old(store.Now()), s, r, store.Now())
      ensures r.Returned? ==> store.selected in store.validated
      ensures Blames(until, old(store.Now()), old(store.mishaps), FailureOf(r), store.Now(), store.mishaps)
    {
      hide EMPTY, Through, SoundMetadata, LatestItem, RequiredSeconds, Content, FileName,
        CandidateStateStore.CandidateName, Emptying, Attempting, Blames;
      ghost var a, mishaps := store.Now(), store.mishaps;
      ghost var points := ActivationPoints(store.epoch, RequiredSeconds(nginx.timeout), clock, store.Now(), s);
      PassesEmptying(store.epoch, RequiredSeconds(nginx.timeout), clock, store.Now(), s);
      var candidate := RenderCandidate(store.epoch, s.revision, s.items);
      if candidate.value.entryCount == 0 {
        r := ActivateAuthoritativeEmpty(s);
        NothingToBlame(until, a, mishaps, FailureOf(r), store.Now(), store.mishaps);
        ThroughMore(old(store.Now()), old(store.trace), store.trace, Emptying(old(store.Now())), points);
        return;
      }
      var probe := ProbeItem(s, clock);
      if probe.None? {
        r := DeactivateEmpty(PendingEmpty);
        NothingToBlame(until, a, mishaps, FailureOf(r), store.Now(), store.mishaps);
        ThroughMore(old(store.Now()), old(store.trace), store.trace, Emptying(old(store.Now())), points);
        return;
      }
      r := Transact(s, candidate.value, probe.value, until);
    }

    /** activate: the margin is judged at `clock`, and no reading of the clock is later than `until`. */
    method Activate(s: Snapshot, clock: real, until: real) returns (r: Outcome)
      requires Ready() && Valid(store.epoch, s)
      modifies store
      ensures Ready()
      ensures Through(old(store.Now()), old(store.trace), store.trace,
                      ActivationPoints(store.epoch, RequiredSeconds(nginx.timeout), clock, old(store.Now()), s))
      ensures Activates(store.epoch, RequiredSeconds(nginx.timeout), clock, until, old(store.Now()), s, r, store.Now())
      ensures r.Returned? && r.answer.Selected? ==> store.selected in store.validated
      ensures Blames(until, old(store.Now()), old(store.mishaps), FailureOf(r), store.Now(), store.mishaps)
    {
      hide EMPTY, Through, SoundMetadata, LatestItem, RequiredSeconds, Content, Emptying, ActivationPoints, Blames;
      ghost var a, mishaps := store.Now(), store.mishaps;
      ghost var points := ActivationPoints(store.epoch, RequiredSeconds(nginx.timeout), clock, store.Now(), s);
      PassesEmptying(store.epoch, RequiredSeconds(nginx.timeout), clock, store.Now(), s);
      if store.disabled {
        r := DeactivateEmpty(DisabledEmpty);
        NothingToBlame(until, a, mishaps, FailureOf(r), store.Now(), store.mishaps);
        ThroughMore(old(store.Now()), old(store.trace), store.trace, Emptying(old(store.Now())), points);
        return;
      }
      var decision := RevisionDecision(s);
      if decision.Some? {
        ThroughWrite(store.Now(), store.trace, store.trace);
        ThroughMore(store.Now(), store.trace, store.trace, {Here(store.Now())}, points);
        NothingToBlame(until, a, mishaps, None, a, mishaps);
        return Returned(decision.value);
      }
      r := ActOn(s, clock, until);
    }
  }
}
