/** Versioned policy snapshots: their checksum and what _validate_snapshot lets through. */
module Snapshots {
  import opened Wrappers
  import Text
  import opened Items
  import CanonicalJson

  const MAX_ITEMS := 512
  const SCHEMA_VERSION := 1
  const POLICY_VERSION := "confidence-waf-enforcement-v1"
  const SCOPE := "RECORD_SEARCH"
  const PATH := "/records/search"

  /** SHA-256 taken as collision free: a digest stands for the one content that has it. */
  datatype Digest = Sha256(preimage: string)

  datatype Snapshot = Snapshot(
    schema: int,
    policy: string,
    revision: int,
    scope: string,
    generatedAt: string,
    stateChecksum: Digest,
    items: seq<Item>)

  function StateOf(epoch: TimestampReader, s: Snapshot): CanonicalJson.State {
    CanonicalJson.State(s.schema, s.policy, s.revision, s.scope, Ordered(epoch, s.items))
  }

  function CanonicalStateChecksum(epoch: TimestampReader, s: Snapshot): Digest {
    Sha256(CanonicalJson.StateText(StateOf(epoch, s)))
  }

  /** Equal state checksums mean equal states, up to the order of the items; and conversely. */
  lemma ChecksumNamesState(epoch: TimestampReader, s: Snapshot, t: Snapshot)
    requires DistinctEntries(s.items)
    ensures CanonicalStateChecksum(epoch, s) == CanonicalStateChecksum(epoch, t) <==>
            && s.schema == t.schema && s.policy == t.policy && s.revision == t.revision
            && s.scope == t.scope && multiset(s.items) == multiset(t.items)
  {
    if CanonicalStateChecksum(epoch, s) == CanonicalStateChecksum(epoch, t) {
      CanonicalJson.StateTextInjective(StateOf(epoch, s), StateOf(epoch, t));
    }
    if multiset(s.items) == multiset(t.items) {
      OrderedForgetsArrival(epoch, s.items, t.items);
    }
  }

  // ------------------------------------------------------------- validation

  predicate ValidItem(epoch: TimestampReader, item: Item) {
    && item.entryId >= 1
    && item.recommendationId >= 1
    && Text.CanonicalIp(item.sourceIp)
    && item.requestPath == PATH
    && epoch(item.expiresAt).Some?
  }

  /** The two items share an entry, a recommendation, or a source and path. */
  predicate Clash(a: Item, b: Item) {
    || a.entryId == b.entryId
    || a.recommendationId == b.recommendationId
    || (a.sourceIp == b.sourceIp && a.requestPath == b.requestPath)
  }

  ghost predicate NoClash(items: seq<Item>) {
    forall i, j :: 0 <= i < j < |items| ==> !Clash(items[i], items[j])
  }

  predicate ValidHeader(epoch: TimestampReader, s: Snapshot) {
    && s.schema == SCHEMA_VERSION
    && s.policy == POLICY_VERSION
    && s.revision >= 0
    && s.scope == SCOPE
    && epoch(s.generatedAt).Some?
    && |s.items| <= MAX_ITEMS
  }

  ghost predicate ValidItems(epoch: TimestampReader, items: seq<Item>) {
    (forall i :: 0 <= i < |items| ==> ValidItem(epoch, items[i])) && NoClash(items)
  }

  ghost predicate Valid(epoch: TimestampReader, s: Snapshot) {
    && ValidHeader(epoch, s)
    && ValidItems(epoch, s.items)
    && s.stateChecksum == CanonicalStateChecksum(epoch, s)
  }

  datatype Rejection = BadHeader | BadItem | DuplicateIdentity | ChecksumMismatch

  ghost predicate Recorded(entryIds: set<int>, recommendationIds: set<int>, owners: set<(string, string)>,
                           items: seq<Item>)
  {
    && entryIds == (set y | y in items :: y.entryId)
    && recommendationIds == (set y | y in items :: y.recommendationId)
    && owners == (set y | y in items :: (y.sourceIp, y.requestPath))
  }

  lemma SeenIsClash(entryIds: set<int>, recommendationIds: set<int>, owners: set<(string, string)>, items: seq<Item>,
                    x: Item)
    requires Recorded(entryIds, recommendationIds, owners, items)
    ensures x.entryId in entryIds || x.recommendationId in recommendationIds || (x.sourceIp, x.requestPath) in owners
            <==> exists i :: 0 <= i < |items| && Clash(items[i], x)
    ensures Recorded(entryIds + {x.entryId}, recommendationIds + {x.recommendationId},
                     owners + {(x.sourceIp, x.requestPath)}, items + [x])
  {
    if i :| 0 <= i < |items| && Clash(items[i], x) {
      assert items[i] in items;
    }
  }

  lemma ExtendValid(epoch: TimestampReader, items: seq<Item>, x: Item)
    requires ValidItems(epoch, items)
    ensures ValidItems(epoch, items + [x]) <==>
      ValidItem(epoch, x) && !exists i :: 0 <= i < |items| && Clash(items[i], x)
  {
    var all := items + [x];
    if ValidItems(epoch, all) {
      assert ValidItem(epoch, all[|items|]);
      forall i | 0 <= i < |items| ensures !Clash(items[i], x) {
        assert !Clash(all[i], all[|items|]);
      }
    }
  }

  lemma PrefixValid(epoch: TimestampReader, items: seq<Item>, k: nat)
    requires k <= |items| && ValidItems(epoch, items)
    ensures ValidItems(epoch, items[..k])
  {
  }

  ghost predicate FirstFault(epoch: TimestampReader, items: seq<Item>, k: int, why: Rejection) {
    && 0 <= k < |items|
    && ValidItems(epoch, items[..k])
    && match why
       case BadItem => !ValidItem(epoch, items[k])
       case DuplicateIdentity => ValidItem(epoch, items[k]) && exists i :: 0 <= i < k && Clash(items[i], items[k])
       case _ => false
  }

  /** The loop over the items: the first fault in list order, if there is one. */
  method CheckItems(epoch: TimestampReader, items: seq<Item>) returns (fault: Option<Rejection>)
    ensures fault.None? <==> ValidItems(epoch, items)
    ensures fault.Some? ==> exists k :: FirstFault(epoch, items, k, fault.value)
  {
    var entryIds: set<int>, recommendationIds: set<int>, owners: set<(string, string)> := {}, {}, {};
    for k := 0 to |items|
      invariant ValidItems(epoch, items[..k])
      invariant Recorded(entryIds, recommendationIds, owners, items[..k])
    {
      var item := items[k];
      assert items[..k + 1] == items[..k] + [item];
      ExtendValid(epoch, items[..k], item);
      if !ValidItem(epoch, item) {
        assert FirstFault(epoch, items, k, BadItem);
        return Some(BadItem);
      }
      var identity := (item.sourceIp, item.requestPath);
      SeenIsClash(entryIds, recommendationIds, owners, items[..k], item);
      if item.entryId in entryIds || item.recommendationId in recommendationIds || identity in owners {
        if ValidItems(epoch, items) {
          PrefixValid(epoch, items, k + 1);
        }
        assert FirstFault(epoch, items, k, DuplicateIdentity);
        return Some(DuplicateIdentity);
      }
      entryIds, recommendationIds := entryIds + {item.entryId}, recommendationIds + {item.recommendationId};
      owners := owners + {identity};
    }
    assert items[..|items|] == items;
    return None;
  }

  /** _validate_snapshot on a decoded body whose fields have their JSON types. */
  method ValidateSnapshot(epoch: TimestampReader, value: Snapshot) returns (r: Result<Snapshot, Rejection>)
    ensures r.Ok? <==> Valid(epoch, value)
    ensures r.Ok? ==> r.value == value
    ensures r == Err(BadHeader) <==> !ValidHeader(epoch, value)
    ensures r == Err(BadItem) || r == Err(DuplicateIdentity) ==> exists k :: FirstFault(epoch, value.items, k, r.error)
    ensures r == Err(ChecksumMismatch) ==>
      ValidItems(epoch, value.items) && value.stateChecksum != CanonicalStateChecksum(epoch, value)
  {
    if !ValidHeader(epoch, value) {
      return Err(BadHeader);
    }
    var fault := CheckItems(epoch, value.items);
    if fault.Some? {
      return Err(fault.value);
    }
    if CanonicalStateChecksum(epoch, value) != value.stateChecksum {
      return Err(ChecksumMismatch);
    }
    return Ok(value);
  }

  lemma ValidIsDistinct(epoch: TimestampReader, s: Snapshot)
    requires Valid(epoch, s)
    ensures DistinctEntries(s.items)
  {
    forall i, j | 0 <= i < j < |s.items| ensures s.items[i].entryId != s.items[j].entryId {
      assert !Clash(s.items[i], s.items[j]);
    }
  }

  /** Validated snapshots that agree on the checksum agree on the revision and on what they block. */
  lemma ChecksumNamesSnapshot(epoch: TimestampReader, s: Snapshot, t: Snapshot)
    requires Valid(epoch, s) && Valid(epoch, t) && s.stateChecksum == t.stateChecksum
    ensures s.revision == t.revision
    ensures multiset(s.items) == multiset(t.items)
    ensures Ordered(epoch, s.items) == Ordered(epoch, t.items)
  {
    ValidIsDistinct(epoch, s);
    ChecksumNamesState(epoch, s, t);
    OrderedForgetsArrival(epoch, s.items, t.items);
  }

  /** What is let through, written out: in particular every address is blocked by at most one item. */
  lemma ValidIff(epoch: TimestampReader, s: Snapshot)
    ensures Valid(epoch, s) <==>
      && s.schema == 1 && s.policy == "confidence-waf-enforcement-v1" && s.scope == "RECORD_SEARCH"
      && s.revision >= 0 && epoch(s.generatedAt).Some? && |s.items| <= 512
      && (forall i :: 0 <= i < |s.items| ==>
            && s.items[i].entryId > 0 && s.items[i].recommendationId > 0
            && s.items[i].requestPath == "/records/search" && epoch(s.items[i].expiresAt).Some?
            && exists v: nat :: v < Text.IPV4_SPACE && Text.IpText(v) == s.items[i].sourceIp)
      && (forall i, j :: 0 <= i < j < |s.items| ==>
            && s.items[i].entryId != s.items[j].entryId
            && s.items[i].recommendationId != s.items[j].recommendationId
            && s.items[i].sourceIp != s.items[j].sourceIp)
      && s.stateChecksum == CanonicalStateChecksum(epoch, s)
  {
    hide Text.CanonicalIp, Text.IpText, CanonicalStateChecksum;
    forall i | 0 <= i < |s.items|
      ensures Text.CanonicalIp(s.items[i].sourceIp)
              <==> exists v: nat :: v < Text.IPV4_SPACE && Text.IpText(v) == s.items[i].sourceIp
    {
      Text.CanonicalIpIsPrinted(s.items[i].sourceIp);
    }
    if Valid(epoch, s) {
      forall i, j | 0 <= i < j < |s.items|
        ensures s.items[i].entryId != s.items[j].entryId
        ensures s.items[i].recommendationId != s.items[j].recommendationId
        ensures s.items[i].sourceIp != s.items[j].sourceIp
      {
        assert ValidItem(epoch, s.items[i]) && ValidItem(epoch, s.items[j]);
        assert !Clash(s.items[i], s.items[j]);
      }
    }
  }
}
