/** The bounded TTL cache that suppresses replayed transactions, against its full history. */
module DedupCache {
  datatype Entry = Entry(id: string, seenAt: real)

  // ------------------------------------------------------- the specification

  /** The i-th add is the last one of its id. */
  ghost predicate LastAdd(h: seq<Entry>, i: nat) {
    i < |h| && forall k :: i < k < |h| ==> h[k].id != h[i].id
  }

  /** The ids added after the i-th add. */
  ghost function IdsAfter(h: seq<Entry>, i: nat): set<string> {
    set k | i < k < |h| :: h[k].id
  }

  /** Added last less than the TTL ago, and among the most recently added distinct ids. */
  ghost predicate Member(h: seq<Entry>, id: string, now: real, ttl: real, maxEntries: nat) {
    exists i: nat :: LastAdd(h, i) && h[i].id == id && now - h[i].seenAt < ttl && |IdsAfter(h, i)| < maxEntries
  }

  ghost predicate Ordered(h: seq<Entry>) {
    forall i, j :: 0 <= i < j < |h| ==> h[i].seenAt <= h[j].seenAt
  }

  // ------------------------------------------------------------ recency order

  function Without(s: seq<Entry>, id: string): (r: seq<Entry>)
    ensures |r| <= |s|
  {
    if s == [] then []
    else if s[0].id == id then Without(s[1..], id)
    else [s[0]] + Without(s[1..], id)
  }

  lemma {:induction false} WithoutElements(s: seq<Entry>, id: string)
    ensures forall x :: x in Without(s, id) <==> x in s && x.id != id
  {
    if s != [] {
      WithoutElements(s[1..], id);
      assert s == [s[0]] + s[1..];
    }
  }

  /** The last add of every id, least recent first. */
  function Recency(h: seq<Entry>): seq<Entry> {
    if h == [] then []
    else
      var last := |h| - 1;
      Without(Recency(h[..last]), h[last].id) + [h[last]]
  }

  lemma {:induction false} RecencyElements(h: seq<Entry>)
    ensures forall x :: x in Recency(h) ==> x in h
  {
    if h != [] {
      var last := |h| - 1;
      RecencyElements(h[..last]);
      WithoutElements(Recency(h[..last]), h[last].id);
      assert h == h[..last] + [h[last]];
    }
  }

  ghost predicate DistinctIds(s: seq<Entry>) {
    forall i, j :: 0 <= i < j < |s| ==> s[i].id != s[j].id
  }

  function Ids(s: seq<Entry>): set<string> { set x | x in s :: x.id }

  lemma {:induction false} WithoutConcat(a: seq<Entry>, b: seq<Entry>, id: string)
    ensures Without(a + b, id) == Without(a, id) + Without(b, id)
  {
    if a == [] {
      assert a + b == b;
    } else {
      assert (a + b)[1..] == a[1..] + b;
      WithoutConcat(a[1..], b, id);
    }
  }

  lemma {:induction false} NothingWithout(s: seq<Entry>, id: string)
    requires forall j :: 0 <= j < |s| ==> s[j].id != id
    ensures Without(s, id) == s
  {
    if s != [] {
      NothingWithout(s[1..], id);
    }
  }

  lemma Prepend(x: Entry, rest: seq<Entry>)
    requires DistinctIds(rest) && Ordered(rest) && forall y :: y in rest ==> x.id != y.id && x.seenAt <= y.seenAt
    ensures DistinctIds([x] + rest) && Ordered([x] + rest)
  {
  }

  lemma Tail(s: seq<Entry>)
    requires s != [] && DistinctIds(s) && Ordered(s)
    ensures DistinctIds(s[1..]) && Ordered(s[1..])
    ensures forall y :: y in s[1..] ==> s[0].id != y.id && s[0].seenAt <= y.seenAt
  {
  }

  lemma Singleton(s: seq<Entry>)
    requires |s| <= 1
    ensures DistinctIds(s) && Ordered(s)
  {
  }

  lemma {:induction false} WithoutKeepsOrder(s: seq<Entry>, id: string)
    requires DistinctIds(s) && Ordered(s)
    ensures DistinctIds(Without(s, id)) && Ordered(Without(s, id))
  {
    hide DistinctIds, Ordered;
    if s != [] {
      Tail(s);
      WithoutKeepsOrder(s[1..], id);
      WithoutElements(s[1..], id);
      if s[0].id != id {
        Prepend(s[0], Without(s[1..], id));
      }
    } else {
      Singleton(s);
    }
  }

  lemma {:induction false} WithoutDropsOne(s: seq<Entry>, id: string)
    requires DistinctIds(s)
    ensures |Without(s, id)| >= |s| - 1
  {
    if s != [] {
      if s[0].id == id {
        NothingWithout(s[1..], id);
      } else {
        WithoutDropsOne(s[1..], id);
      }
    }
  }

  lemma WithoutIds(s: seq<Entry>, id: string)
    ensures Ids(Without(s, id)) == Ids(s) - {id}
  {
    WithoutElements(s, id);
  }

  lemma AppendKeepsOrder(s: seq<Entry>, e: Entry)
    requires DistinctIds(s) && Ordered(s) && forall x :: x in s ==> x.id != e.id && x.seenAt <= e.seenAt
    ensures DistinctIds(s + [e]) && Ordered(s + [e])
  {
  }

  lemma AppendIds(s: seq<Entry>, e: Entry)
    ensures Ids(s + [e]) == Ids(s) + {e.id}
  {
  }

  lemma UnionBack(s: set<string>, x: string)
    ensures s - {x} + {x} == s + {x}
  {
  }

  lemma OrderedFront(h: seq<Entry>)
    requires h != [] && Ordered(h)
    ensures Ordered(h[..|h| - 1]) && forall x :: x in h[..|h| - 1] ==> x.seenAt <= h[|h| - 1].seenAt
  {
  }

  lemma {:induction false} RecencyIsOrdered(h: seq<Entry>)
    requires Ordered(h)
    ensures DistinctIds(Recency(h)) && Ordered(Recency(h))
    ensures Ids(Recency(h)) == Ids(h)
  {
    hide Ids, DistinctIds, Ordered, Without;
    if h == [] {
      Singleton(h);
    } else {
      var last := |h| - 1;
      var before := Recency(h[..last]);
      var kept := Without(before, h[last].id);
      OrderedFront(h);
      RecencyIsOrdered(h[..last]);
      WithoutKeepsOrder(before, h[last].id);
      RecencyElements(h[..last]);
      WithoutElements(before, h[last].id);
      WithoutIds(before, h[last].id);
      AppendKeepsOrder(kept, h[last]);
      AppendIds(kept, h[last]);
      AppendIds(h[..last], h[last]);
      UnionBack(Ids(h[..last]), h[last].id);
      assert h == h[..last] + [h[last]];
    }
  }

  lemma {:induction false} IdsCount(s: seq<Entry>)
    requires DistinctIds(s)
    ensures |Ids(s)| == |s|
  {
    if s != [] {
      IdsCount(s[1..]);
      assert Ids(s) == Ids(s[1..]) + {s[0].id};
      assert s[0].id !in Ids(s[1..]);
    }
  }

  lemma WithoutFirst(s: seq<Entry>, id: string)
    requires s != []
    ensures Without(s, id) == if s[0].id == id then Without(s[1..], id) else [s[0]] + Without(s[1..], id)
  {
  }

  /** The j-th entry left after removing an id is the i-th of s, and so are those behind it. */
  ghost predicate StandsAt(left: seq<Entry>, j: nat, s: seq<Entry>, id: string, i: nat) {
    j < |left| && i < |s| && s[i] == left[j] && left[j + 1..] == Without(s[i + 1..], id)
  }

  lemma StandsInLonger(left: seq<Entry>, j: nat, s: seq<Entry>, t: seq<Entry>, id: string, x: Entry, i: nat)
    requires s == [x] + t && StandsAt(left, j, t, id, i)
    ensures StandsAt(left, j, s, id, i + 1)
    ensures StandsAt([x] + left, j + 1, s, id, i + 1)
  {
    hide Without;
    assert s[i + 2..] == t[i + 1..];
    assert ([x] + left)[j + 2..] == left[j + 1..];
  }

  lemma StandsFirst(s: seq<Entry>, id: string)
    requires s != [] && s[0].id != id
    ensures StandsAt(Without(s, id), 0, s, id, 0)
  {
    assert Without(s, id)[1..] == Without(s[1..], id);
  }

  lemma NothingLeft(id: string)
    ensures Without([], id) == []
  {
  }

  lemma {:induction false} WithoutPosition(s: seq<Entry>, id: string, j: nat) returns (i: nat)
    requires j < |Without(s, id)|
    ensures StandsAt(Without(s, id), j, s, id, i)
    decreases |s|
  {
    hide Without, StandsAt;
    NothingLeft(id);
    WithoutFirst(s, id);
    assert s == [s[0]] + s[1..];
    var rest := Without(s[1..], id);
    if s[0].id == id {
      i := WithoutPosition(s[1..], id, j);
      StandsInLonger(rest, j, s, s[1..], id, s[0], i);
      i := i + 1;
    } else if j == 0 {
      i := 0;
      StandsFirst(s, id);
    } else {
      i := WithoutPosition(s[1..], id, j - 1);
      StandsInLonger(rest, j - 1, s, s[1..], id, s[0], i);
      i := i + 1;
    }
  }

  lemma LastAddExtends(h: seq<Entry>, e: Entry, i: nat)
    requires LastAdd(h, i) && h[i].id != e.id
    ensures LastAdd(h + [e], i) && (h + [e])[i] == h[i]
    ensures IdsAfter(h + [e], i) == IdsAfter(h, i) + {e.id}
  {
    var g := h + [e];
    assert g[|h|] == e && forall k :: 0 <= k < |h| ==> g[k] == h[k];
    forall x | x in IdsAfter(h, i) ensures x in IdsAfter(g, i) {
      var k :| i < k < |h| && h[k].id == x;
      assert g[k].id == x;
    }
  }

  lemma LastAddOfLast(h: seq<Entry>, e: Entry)
    ensures LastAdd(h + [e], |h|) && IdsAfter(h + [e], |h|) == {}
  {
  }

  lemma NoIds()
    ensures Ids([]) == {}
  {
  }

  /** A place in the recency order is the last add of its id, followed by exactly the ids behind it. */
  lemma {:induction false} RecencyPosition(h: seq<Entry>, j: nat) returns (i: nat)
    requires j < |Recency(h)|
    ensures LastAdd(h, i) && h[i] == Recency(h)[j]
    ensures IdsAfter(h, i) == Ids(Recency(h)[j + 1..])
  {
    hide LastAdd, IdsAfter, Ids, Without;
    var last := |h| - 1;
    var e, before := h[last], Recency(h[..last]);
    var kept := Without(before, e.id);
    assert h == h[..last] + [e];
    if j == |kept| {
      i := last;
      LastAddOfLast(h[..last], e);
      assert Recency(h)[j + 1..] == [];
      NoIds();
    } else {
      var k := WithoutPosition(before, e.id, j);
      WithoutIds(before[k + 1..], e.id);
      i := RecencyPosition(h[..last], k);
      assert kept[j] in kept;
      WithoutElements(before, e.id);
      LastAddExtends(h[..last], e, i);
      assert Recency(h)[j + 1..] == kept[j + 1..] + [e];
      AppendIds(kept[j + 1..], e);
    }
  }

  /** Membership in terms of the recency order: fresh, and fewer than max entries behind. */
  ghost predicate Kept(r: seq<Entry>, j: int, now: real, ttl: real, maxEntries: nat) {
    0 <= j < |r| && now - r[j].seenAt < ttl && |r| - 1 - j < maxEntries
  }

  lemma TailCount(r: seq<Entry>, j: nat)
    requires j <= |r| && DistinctIds(r)
    ensures |Ids(r[j..])| == |r| - j
  {
    IdsCount(r[j..]);
  }

  lemma KeptIsMember(h: seq<Entry>, j: int, now: real, ttl: real, maxEntries: nat)
    requires Ordered(h) && Kept(Recency(h), j, now, ttl, maxEntries)
    ensures Member(h, Recency(h)[j].id, now, ttl, maxEntries)
  {
    hide LastAdd, IdsAfter, Ids, Recency, Ordered;
    RecencyIsOrdered(h);
    var i := RecencyPosition(h, j);
    TailCount(Recency(h), j + 1);
  }

  lemma PlaceOf(h: seq<Entry>, i: nat) returns (j: int)
    requires Ordered(h) && i < |h|
    ensures 0 <= j < |Recency(h)| && Recency(h)[j].id == h[i].id
  {
    hide Recency, Ordered;
    RecencyIsOrdered(h);
    assert h[i] in h;
    assert h[i].id in Ids(Recency(h));
    var x :| x in Recency(h) && x.id == h[i].id;
    j :| 0 <= j < |Recency(h)| && Recency(h)[j] == x;
  }

  lemma MemberHasPlace(h: seq<Entry>, id: string, now: real, ttl: real, maxEntries: nat) returns (j: int)
    requires Ordered(h) && Member(h, id, now, ttl, maxEntries)
    ensures Kept(Recency(h), j, now, ttl, maxEntries) && Recency(h)[j].id == id
  {
    hide IdsAfter, Recency, Ordered;
    RecencyIsOrdered(h);
    var r := Recency(h);
    var i: nat :| LastAdd(h, i) && h[i].id == id && now - h[i].seenAt < ttl && |IdsAfter(h, i)| < maxEntries;
    j := PlaceOf(h, i);
    var k := RecencyPosition(h, j);
    assert k == i;
    TailCount(r, j + 1);
  }

  // ---------------------------------------------------------------- the cache

  /** The history in recency order is what was dropped, each for a reason, and then what is kept. */
  ghost predicate Cached(h: seq<Entry>, dropped: seq<Entry>, entries: seq<Entry>, now: real, ttl: real,
                         maxEntries: nat)
  {
    && Ordered(h)
    && (forall x :: x in h ==> x.seenAt <= now)
    && Recency(h) == dropped + entries
    && |entries| <= maxEntries
    && (forall j :: 0 <= j < |dropped| ==>
          now - dropped[j].seenAt >= ttl || |dropped| + |entries| - 1 - j >= maxEntries)
  }

  ghost predicate Fresh(entries: seq<Entry>, now: real, ttl: real) {
    forall x :: x in entries ==> now - x.seenAt < ttl
  }

  /** A pruned cache holds an id exactly when the history says it is a member. */
  lemma CachedIsMember(h: seq<Entry>, dropped: seq<Entry>, entries: seq<Entry>, id: string, now: real, ttl: real,
                       maxEntries: nat)
    requires Cached(h, dropped, entries, now, ttl, maxEntries) && Fresh(entries, now, ttl)
    ensures id in Ids(entries) <==> Member(h, id, now, ttl, maxEntries)
  {
    hide Member, Recency, Ordered;
    var r := Recency(h);
    if id in Ids(entries) {
      var x :| x in entries && x.id == id;
      var k :| 0 <= k < |entries| && entries[k] == x;
      assert r[|dropped| + k] == x;
      KeptIsMember(h, |dropped| + k, now, ttl, maxEntries);
    }
    if Member(h, id, now, ttl, maxEntries) {
      var j := MemberHasPlace(h, id, now, ttl, maxEntries);
      if j >= |dropped| {
        assert r[j] == entries[j - |dropped|];
        assert r[j] in entries;
      }
    }
  }

  lemma PruneKeepsCached(h: seq<Entry>, dropped: seq<Entry>, entries: seq<Entry>, now: real, later: real, ttl: real,
                         maxEntries: nat, k: nat)
    requires Cached(h, dropped, entries, now, ttl, maxEntries) && now <= later && k <= |entries|
    requires forall j :: 0 <= j < k ==> later - entries[j].seenAt >= ttl
    ensures Cached(h, dropped + entries[..k], entries[k..], later, ttl, maxEntries)
  {
    hide Recency, Ordered;
    assert dropped + entries[..k] + entries[k..] == dropped + entries;
  }

  /** Entries are in order of time, so that the first fresh one ends the expired ones. */
  lemma FreshFromFirst(h: seq<Entry>, dropped: seq<Entry>, entries: seq<Entry>, now: real, ttl: real, maxEntries: nat)
    requires Cached(h, dropped, entries, now, ttl, maxEntries) && (entries != [] ==> now - entries[0].seenAt < ttl)
    ensures Fresh(entries, now, ttl)
  {
    RecencyIsOrdered(h);
    hide Recency;
    var r := Recency(h);
    forall k | 0 <= k < |entries| ensures entries[0].seenAt <= entries[k].seenAt {
      assert r[|dropped|] == entries[0] && r[|dropped| + k] == entries[k];
    }
  }

  /** All expired entries filtered out, wherever they stand. */
  function OnlyFresh(entries: seq<Entry>, now: real, ttl: real): seq<Entry> {
    if entries == [] then []
    else if now - entries[0].seenAt < ttl then [entries[0]] + OnlyFresh(entries[1..], now, ttl)
    else OnlyFresh(entries[1..], now, ttl)
  }

  lemma {:induction false} FreshPart(entries: seq<Entry>, now: real, ttl: real, k: nat)
    requires k <= |entries|
    requires forall j :: 0 <= j < k ==> now - entries[j].seenAt >= ttl
    requires forall j :: k <= j < |entries| ==> now - entries[j].seenAt < ttl
    ensures OnlyFresh(entries, now, ttl) == entries[k..]
  {
    if entries != [] {
      FreshPart(entries[1..], now, ttl, if k > 0 then k - 1 else 0);
    }
  }

  lemma SuffixDistinct(s: seq<Entry>, i: nat)
    requires i <= |s| && DistinctIds(s)
    ensures DistinctIds(s[i..])
  {
  }

  /** Removing one id and adding it at the end brings no other entry closer to the end. */
  lemma DroppedStays(dropped: seq<Entry>, entries: seq<Entry>, id: string, j: nat) returns (i: nat)
    requires DistinctIds(dropped + entries) && j < |Without(dropped, id)|
    ensures i < |dropped| && dropped[i] == Without(dropped, id)[j]
    ensures |Without(dropped, id)| + |Without(entries, id)| - j >= |dropped| + |entries| - 1 - i
  {
    hide DistinctIds, Without;
    i := WithoutPosition(dropped, id, j);
    assert |Without(dropped, id)| - 1 - j == |Without(dropped[i + 1..], id)|;
    var s := dropped + entries;
    assert s[i + 1..] == dropped[i + 1..] + entries;
    SuffixDistinct(s, i + 1);
    WithoutDropsOne(s[i + 1..], id);
    WithoutConcat(dropped[i + 1..], entries, id);
  }

  lemma RecencyOfAdd(h: seq<Entry>, dropped: seq<Entry>, entries: seq<Entry>, e: Entry)
    requires Recency(h) == dropped + entries
    ensures Recency(h + [e]) == Without(dropped, e.id) + Without(entries, e.id) + [e]
  {
    assert (h + [e])[..|h|] == h;
    WithoutConcat(dropped, entries, e.id);
  }

  /** What falls off the front of a full cache has max entries behind it. */
  lemma OverflowForReason(out: seq<Entry>, rest: seq<Entry>, e: Entry, ttl: real, maxEntries: nat, k: nat)
    requires maxEntries > 0
    requires k == if |rest| >= maxEntries then |rest| - maxEntries + 1 else 0
    requires forall j :: 0 <= j < |out| ==> e.seenAt - out[j].seenAt >= ttl || |out| + |rest| - j >= maxEntries
    ensures k <= |rest|
    ensures var d, kept := out + rest[..k], rest[k..] + [e];
      && |kept| <= maxEntries
      && forall j :: 0 <= j < |d| ==> e.seenAt - d[j].seenAt >= ttl || |d| + |kept| - 1 - j >= maxEntries
  {
  }

  lemma Split(out: seq<Entry>, rest: seq<Entry>, e: Entry, k: nat)
    requires k <= |rest|
    ensures (out + rest[..k]) + (rest[k..] + [e]) == out + rest + [e]
  {
  }

  lemma CachedFrom(h: seq<Entry>, dropped: seq<Entry>, entries: seq<Entry>, now: real, ttl: real, maxEntries: nat)
    requires Ordered(h) && (forall x :: x in h ==> x.seenAt <= now)
    requires Recency(h) == dropped + entries && |entries| <= maxEntries
    requires forall j :: 0 <= j < |dropped| ==>
      now - dropped[j].seenAt >= ttl || |dropped| + |entries| - 1 - j >= maxEntries
    ensures Cached(h, dropped, entries, now, ttl, maxEntries)
  {
    hide Recency, Ordered;
  }

  lemma DroppedForReason(h: seq<Entry>, dropped: seq<Entry>, entries: seq<Entry>, e: Entry, ttl: real,
                         maxEntries: nat, j: nat)
    requires Cached(h, dropped, entries, e.seenAt, ttl, maxEntries) && DistinctIds(dropped + entries)
    requires j < |Without(dropped, e.id)|
    ensures e.seenAt - Without(dropped, e.id)[j].seenAt >= ttl
            || |Without(dropped, e.id)| + |Without(entries, e.id)| - j >= maxEntries
  {
    hide Recency, Ordered, Without, DistinctIds;
    var i := DroppedStays(dropped, entries, e.id, j);
  }

  lemma OrderedAppend(h: seq<Entry>, e: Entry)
    requires Ordered(h) && forall x :: x in h ==> x.seenAt <= e.seenAt
    ensures Ordered(h + [e]) && forall x :: x in h + [e] ==> x.seenAt <= e.seenAt
  {
  }

  /** Re-adding an id moves it behind all others; what was dropped stays dropped for the same reason. */
  lemma AddKeepsCached(h: seq<Entry>, dropped: seq<Entry>, entries: seq<Entry>, e: Entry, ttl: real, maxEntries: nat,
                       k: nat)
    requires Cached(h, dropped, entries, e.seenAt, ttl, maxEntries)
    requires maxEntries > 0
    requires var rest := Without(entries, e.id); k == if |rest| >= maxEntries then |rest| - maxEntries + 1 else 0
    ensures var rest := Without(entries, e.id);
      k <= |rest| && Cached(h + [e], Without(dropped, e.id) + rest[..k], rest[k..] + [e], e.seenAt, ttl, maxEntries)
  {
    var rest, out := Without(entries, e.id), Without(dropped, e.id);
    assert Ordered(h) && Recency(h) == dropped + entries && (forall x :: x in h ==> x.seenAt <= e.seenAt) by {
      hide Recency, Ordered, Without;
    }
    assert DistinctIds(dropped + entries) by {
      RecencyIsOrdered(h);
    }
    hide Recency, Ordered, Without, DistinctIds;
    forall j | 0 <= j < |out| ensures e.seenAt - out[j].seenAt >= ttl || |out| + |rest| - j >= maxEntries {
      DroppedForReason(h, dropped, entries, e, ttl, maxEntries, j);
    }
    hide Cached;
    OverflowForReason(out, rest, e, ttl, maxEntries, k);
    RecencyOfAdd(h, dropped, entries, e);
    OrderedAppend(h, e);
    var dropped', entries' := out + rest[..k], rest[k..] + [e];
    Split(out, rest, e, k);
    CachedFrom(h + [e], dropped', entries', e.seenAt, ttl, maxEntries);
  }

  class TransactionDedupCache {
    const maxEntries: nat
    const ttl: real
    var entries: seq<Entry>
    ghost var dropped: seq<Entry>
    ghost var history: seq<Entry>
    ghost var clock: real

    ghost predicate Valid()
      reads this
    {
      maxEntries > 0 && ttl > 0.0 && Cached(history, dropped, entries, clock, ttl, maxEntries)
    }

    constructor (maxEntries: nat, ttl: real, ghost start: real)
      requires maxEntries > 0 && ttl > 0.0
      ensures Valid() && history == [] && this.maxEntries == maxEntries && this.ttl == ttl && clock == start
    {
      this.maxEntries, this.ttl := maxEntries, ttl;
      entries, dropped, history, clock := [], [], [], start;
    }

    /** _prune: popping expired entries from the front equals filtering all of them. */
    method Prune(now: real)
      requires Valid() && now >= clock
      modifies this
      ensures Valid() && history == old(history) && clock == now
      ensures entries == OnlyFresh(old(entries), now, ttl) && Fresh(entries, now, ttl)
    {
      hide Cached;
      ghost var k := 0;
      while entries != []
        invariant k <= |old(entries)| && entries == old(entries)[k..]
        invariant forall j :: 0 <= j < k ==> now - old(entries)[j].seenAt >= ttl
        invariant history == old(history) && dropped == old(dropped) && clock == old(clock)
        decreases |entries|
      {
        if now - entries[0].seenAt < ttl {
          break;
        }
        entries := entries[1..];
        k := k + 1;
      }
      PruneKeepsCached(history, dropped, old(entries), clock, now, ttl, maxEntries, k);
      dropped, clock := dropped + old(entries)[..k], now;
      FreshFromFirst(history, dropped, entries, now, ttl, maxEntries);
      forall j | k <= j < |old(entries)| ensures now - old(entries)[j].seenAt < ttl {
        assert old(entries)[j] == entries[j - k];
        assert entries[j - k] in entries;
      }
      FreshPart(old(entries), now, ttl, k);
    }

    /** __contains__: exactly the ids that the full history makes members now. */
    method Contains(id: string, now: real) returns (found: bool)
      requires Valid() && now >= clock
      modifies this
      ensures Valid() && history == old(history) && clock == now
      ensures found <==> Member(history, id, now, ttl, maxEntries)
    {
      hide Cached, Member;
      Prune(now);
      CachedIsMember(history, dropped, entries, id, now, ttl, maxEntries);
      found := exists j :: 0 <= j < |entries| && entries[j].id == id;
      assert found <==> id in Ids(entries) by {
        if id in Ids(entries) {
          var x :| x in entries && x.id == id;
        }
      }
    }

    /** add: one more entry in the history. */
    method Add(id: string, now: real)
      requires Valid() && now >= clock
      modifies this
      ensures Valid() && history == old(history) + [Entry(id, now)] && clock == now
    {
      hide Cached;
      Prune(now);
      ghost var before := entries;
      entries := Without(entries, id);
      ghost var rest, k := entries, 0;
      while |entries| >= maxEntries
        invariant k <= |rest| && entries == rest[k..]
        invariant k == 0 || |entries| >= maxEntries - 1
        invariant history == old(history) && clock == now && Cached(history, dropped, before, now, ttl, maxEntries)
        decreases |entries|
      {
        entries := entries[1..];
        k := k + 1;
      }
      AddKeepsCached(history, dropped, before, Entry(id, now), ttl, maxEntries, k);
      entries := entries + [Entry(id, now)];
      history := history + [Entry(id, now)];
      dropped := Without(dropped, id) + rest[..k];
    }
  }
}
