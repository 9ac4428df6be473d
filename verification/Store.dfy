/**
 * CandidateStateStore: the files of one WAF instance. Two ghost fields stand for NGINX,
 * the configuration it serves and the configurations it has confirmed, and a ghost trace
 * records what is on disk after each atomic replacement, that is, at every point where a
 * crash can leave it.
 */
module Store {
  import opened Wrappers
  import Items
  import opened Snapshots
  import opened Render

  datatype Kind = Authoritative | ModeEmpty | DisabledEmpty | PendingEmpty

  datatype Probe = Probe(source: string, recommendation: int)

  datatype Metadata = Metadata(
    kind: Kind,
    revision: Option<int>,
    state: Option<Digest>,
    file: Digest,
    selectedAt: Option<real>,
    probe: Option<Probe>)

  datatype View = View(
    selected: string,
    previous: Option<string>,
    metadata: Metadata,
    disabled: bool,
    running: string,
    confirmed: set<string>)

  function EmptyMetadata(kind: Kind, at: Option<real>): Metadata {
    Metadata(kind, None, None, Sha256(EMPTY), at, None)
  }

  /** empty_state_matches: a confirmed empty state of this kind is on disk. */
  predicate MatchesEmpty(m: Metadata, selected: string, kind: Kind) {
    && kind != Authoritative
    && m.kind == kind
    && m.selectedAt.Some?
    && m.revision.None?
    && m.state.None?
    && m.file == Sha256(selected)
    && selected == EMPTY
  }

  /** The metadata names this snapshot and the bytes it renders to. */
  ghost predicate Describes(epoch: Items.TimestampReader, s: Snapshot, m: Metadata) {
    && Valid(epoch, s)
    && m.revision == Some(s.revision)
    && m.state == Some(s.stateChecksum)
    && m.file == Sha256(SnapshotContent(epoch, s))
  }

  /** Authoritative metadata names a validated snapshot whose bytes NGINX once confirmed. */
  ghost predicate SoundMetadata(epoch: Items.TimestampReader, v: View) {
    v.metadata.kind == Authoritative ==>
      && v.metadata.file.preimage in v.confirmed
      && exists s :: Describes(epoch, s, v.metadata)
  }

  /** A selected file that matches authoritative metadata is one that NGINX once confirmed. */
  predicate CrashSafe(v: View) {
    v.metadata.kind == Authoritative && v.metadata.file == Sha256(v.selected) ==> v.selected in v.confirmed
  }

  /** The two views have the same files; what NGINX serves and has confirmed may differ. */
  predicate SameDisk(u: View, v: View) {
    u == v.(running := u.running, confirmed := u.confirmed)
  }

  /** What is selected and what NGINX serves at one moment. */
  datatype Point = Point(selected: string, running: string)

  function Here(v: View): Point { Point(v.selected, v.running) }

  /** Only what NGINX served while it was selected has been confirmed since a. */
  ghost predicate Confirms(a: View, v: View, points: set<Point>) {
    a.confirmed <= v.confirmed && forall c :: c in v.confirmed ==> c in a.confirmed || Point(c, c) in points
  }

  /** The trace has grown, through these points, and all new views but the last show the old metadata and latch. */
  ghost predicate Through(a: View, before: seq<View>, after: seq<View>, points: set<Point>) {
    && before <= after
    && (forall i :: |before| <= i < |after| ==> Here(after[i]) in points && Confirms(a, after[i], points))
    && (forall i :: |before| <= i < |after| - 1 ==> after[i].disabled == a.disabled && after[i].metadata == a.metadata)
  }

  /** Nothing, or one write that selects nothing. */
  lemma ThroughWrite(a: View, before: seq<View>, after: seq<View>)
    requires after == before || (|after| == |before| + 1 && before <= after)
    requires after != before ==> Here(after[|before|]) == Here(a) && after[|before|].confirmed == a.confirmed
    ensures Through(a, before, after, {Here(a)})
  {
  }

  lemma ThroughMore(a: View, before: seq<View>, after: seq<View>, some: set<Point>, points: set<Point>)
    requires Through(a, before, after, some) && some <= points
    ensures Through(a, before, after, points)
  {
  }

  lemma ThroughBoth(a: View, before: seq<View>, between: seq<View>, mid: View, some: set<Point>,
                    after: seq<View>, more: set<Point>, points: set<Point>)
    requires Through(a, before, between, some) && Through(mid, between, after, more)
    requires between != [] && SameDisk(between[|between| - 1], mid)
    requires mid.disabled == a.disabled && mid.metadata == a.metadata && Confirms(a, mid, points)
    requires some <= points && more <= points
    ensures Through(a, before, after, points)
  {
    forall i | |before| <= i < |after| ensures Here(after[i]) in points && Confirms(a, after[i], points) {
      if i < |between| {
        assert after[i] == between[i];
      } else {
        assert Confirms(mid, after[i], more);
      }
    }
    forall i | |before| <= i < |after| - 1
      ensures after[i].disabled == a.disabled && after[i].metadata == a.metadata
    {
      if i < |between| {
        assert after[i] == between[i];
      }
    }
  }

  /** The empty file is selected and may be taken over. */
  function Emptying(v: View): set<Point> {
    {Here(v), Point(EMPTY, v.running), Point(EMPTY, EMPTY)}
  }

  /** The previous file, if there is one, is selected and may be taken over, and then the empty one. */
  function Restoring(v: View): set<Point> {
    Emptying(v)
    + match v.previous
      case None => {}
      case Some(p) => {Point(p, v.running), Point(p, p), Point(EMPTY, p)}
  }

  /** The selected file may be taken over before it is rolled back. */
  function Confirming(v: View): set<Point> {
    Restoring(v) + Restoring(v.(running := v.selected))
  }

  function Previous(v: View): set<string> {
    if v.previous.Some? then {v.previous.value} else {}
  }

  /** The files that a rollback may select. */
  function KnownFiles(v: View): set<string> {
    Previous(v) + {v.selected, EMPTY}
  }

  datatype File = CandidateFile(name: string) | EmptyFile

  datatype WriteResult = Written | InvalidName | Exists

  class CandidateStateStore {
    const epoch: Items.TimestampReader
    const prefix12: Digest -> string
    var selected: string
    var previous: Option<string>
    var metadata: Metadata
    var disabled: bool
    var candidates: map<string, string>
    ghost var running: string
    ghost var confirmed: set<string>
    /** The contents that `nginx -t` has accepted. */
    ghost var validated: set<string>
    /** How often NGINX has said no, or somebody else has rewritten a candidate. */
    ghost var mishaps: nat
    ghost var trace: seq<View>

    ghost function Now(): View
      reads this
    {
      View(selected, previous, metadata, disabled, running, confirmed)
    }

    /**
     * The trace ends with what is on disk now, and at every crash point so far the file that
     * authoritative metadata matches was once confirmed.
     */
    ghost predicate Durable()
      reads this
      ensures Durable() ==> forall i :: 0 <= i < |trace| ==> CrashSafe(trace[i])
    {
      && SoundMetadata(epoch, Now())
      && trace != [] && SameDisk(trace[|trace| - 1], Now())
      && forall i :: 0 <= i < |trace| ==> SoundMetadata(epoch, trace[i])
    }

    lemma TraceEndsNow()
      requires Durable()
      ensures trace != [] && SameDisk(trace[|trace| - 1], Now())
    {
    }

    /** A store opened on what an earlier process left, possibly by crashing. */
    constructor (epoch: Items.TimestampReader, prefix12: Digest -> string, left: View)
      requires SoundMetadata(epoch, left)
      ensures Now() == left && Durable() && trace == [left]
      ensures this.epoch == epoch && this.prefix12 == prefix12
    {
      this.epoch := epoch;
      this.prefix12 := prefix12;
      selected, previous, metadata, disabled := left.selected, left.previous, left.metadata, left.disabled;
      candidates := map[];
      running, confirmed, validated, mishaps, trace := left.running, left.confirmed, {}, 0, [left];
    }

    // ------------------------------------------------------ atomic replacements

    method WriteSelected(content: string)
      requires Durable()
      modifies this`selected, this`trace
      ensures Now() == old(Now()).(selected := content)
      ensures Durable() && trace == old(trace) + [Now()]
    {
      selected := content;
      trace := trace + [Now()];
    }

    method WritePrevious(content: string)
      requires Durable()
      modifies this`previous, this`trace
      ensures Now() == old(Now()).(previous := Some(content))
      ensures Durable() && trace == old(trace) + [Now()]
    {
      previous := Some(content);
      trace := trace + [Now()];
    }

    method WriteMetadata(m: Metadata)
      requires Durable() && SoundMetadata(epoch, Now().(metadata := m))
      modifies this`metadata, this`trace
      ensures Now() == old(Now()).(metadata := m)
      ensures Durable() && trace == old(trace) + [Now()]
    {
      metadata := m;
      trace := trace + [Now()];
    }

    method SetDisabled(value: bool)
      requires Durable()
      modifies this`disabled, this`trace
      ensures Now() == old(Now()).(disabled := value)
      ensures Durable() && trace == old(trace) + [Now()]
    {
      disabled := value;
      trace := trace + [Now()];
    }

    // ------------------------------------------------------------- candidates

    function Read(file: File): Option<string>
      reads this
    {
      match file
      case EmptyFile => Some(EMPTY)
      case CandidateFile(name) => if name in candidates then Some(candidates[name]) else None
    }

    /** A new name is written, an old name is accepted only with the same bytes. */
    method WriteCandidate(name: string, content: string) returns (r: WriteResult)
      modifies this`candidates
      ensures r == Written ==> candidates == old(candidates)[name := content]
      ensures r != Written ==> candidates == old(candidates)
      ensures r == Exists <==> CandidateName(name) && name in old(candidates) && old(candidates)[name] != content
      ensures r == InvalidName <==> !CandidateName(name)
      ensures r == InvalidName <==> !("candidate-" <= name && name[|name| - 5..] == ".conf" && '/' !in name)
    {
      if !CandidateName(name) {
        return InvalidName;
      }
      if name in candidates {
        if candidates[name] == content {
          assert candidates[name := content] == candidates;
          return Written;
        }
        return Exists;
      }
      candidates := candidates[name := content];
      return Written;
    }

    predicate CandidateName(name: string) {
      && |name| >= 10 && name[..10] == "candidate-"
      && name[|name| - 5..] == ".conf"
      && '/' !in name
    }

    /** Somebody else rewrites a candidate file; nothing the store guards depends on it. */
    method OutsideWrite(name: string)
      modifies this`candidates, this`mishaps
      ensures candidates.Keys == old(candidates).Keys + {name}
      ensures old(mishaps) <= mishaps && (mishaps == old(mishaps) ==> candidates == old(candidates))
    {
      var content: string := *;
      if name !in candidates || candidates[name] != content {
        candidates, mishaps := candidates[name := content], mishaps + 1;
      }
    }

    /** Keep the most recent candidate, whichever file time says that is. */
    method PruneCandidates()
      requires Durable()
      modifies this`candidates
      ensures Durable()
      ensures candidates.Keys <= old(candidates).Keys && |candidates| <= 1
      ensures forall name :: name in candidates ==> candidates[name] == old(candidates)[name]
    {
      if candidates != map[] {
        var name :| name in candidates;
        candidates := map[name := candidates[name]];
      }
    }

    /** The bytes move to selected.conf, the bytes they replace to previous.conf. */
    method SelectCandidate(file: File, expected: Option<Digest>) returns (ok: bool)
      requires Durable()
      modifies this`selected, this`previous, this`trace
      ensures ok <==> Read(file).Some? && (expected.Some? ==> Sha256(Read(file).value) == expected.value)
      ensures !ok ==> Now() == old(Now()) && trace == old(trace)
      ensures ok ==> Now() == old(Now()).(selected := Read(file).value, previous := Some(old(selected)))
      ensures Durable() && Through(old(Now()), old(trace), trace, {Here(old(Now())), Here(Now())})
    {
      var content := Read(file);
      if content.None? || (expected.Some? && Sha256(content.value) != expected.value) {
        return false;
      }
      WritePrevious(selected);
      WriteSelected(content.value);
      return true;
    }

    method RestorePrevious() returns (ok: bool)
      requires Durable()
      modifies this`selected, this`trace
      ensures ok <==> previous.Some?
      ensures !ok ==> Now() == old(Now())
      ensures ok ==> Now() == old(Now()).(selected := previous.value)
      ensures Durable() && Through(old(Now()), old(trace), trace, {Here(Now())})
    {
      if previous.None? {
        return false;
      }
      WriteSelected(previous.value);
      return true;
    }

    function EmptyStateMatches(kind: Kind): bool
      reads this
    {
      MatchesEmpty(metadata, selected, kind)
    }

    /** set_empty_state: select the empty file, then record it as not yet confirmed. */
    method SetEmptyState(kind: Kind)
      requires kind != Authoritative && Durable()
      modifies this`selected, this`previous, this`metadata, this`trace
      ensures Durable() && Through(old(Now()), old(trace), trace, {Here(old(Now())), Here(Now())})
      ensures Now() == old(Now()).(selected := EMPTY, previous := Some(old(selected)),
                                   metadata := EmptyMetadata(kind, None))
    {
      var _ := SelectCandidate(EmptyFile, None);
      WriteMetadata(EmptyMetadata(kind, None));
    }
  }
}
