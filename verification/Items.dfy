/** Policy items and the order in which both the checksum and the renderer list them. */
module Items {
  import opened Wrappers
  import opened Sorting
  import opened Text

  datatype Item = Item(
    entryId: int,
    recommendationId: int,
    sourceIp: string,
    requestPath: string,
    expiresAt: string)

  /** _timestamp_epoch: milliseconds since the epoch, or None for a text it rejects. */
  type TimestampReader = string -> Option<int>

  function ExpiryMs(epoch: TimestampReader, item: Item): int { epoch(item.expiresAt).GetOr(0) }

  /** The last second of a block: the expiry second minus one, rounded down. */
  function Cutoff(epoch: TimestampReader, item: Item): int { ExpiryMs(epoch, item) / 1000 - 1 }

  function Address(item: Item): nat { ParseIp(item.sourceIp).GetOr(0) }

  /** The sort key compared as a Python tuple: address, path, expiry, recommendation, entry. */
  predicate Before(epoch: TimestampReader, a: Item, b: Item) {
    if Address(a) != Address(b) then Address(a) < Address(b)
    else if a.requestPath != b.requestPath then TextLess(a.requestPath, b.requestPath)
    else if ExpiryMs(epoch, a) != ExpiryMs(epoch, b) then ExpiryMs(epoch, a) < ExpiryMs(epoch, b)
    else if a.recommendationId != b.recommendationId then a.recommendationId < b.recommendationId
    else a.entryId < b.entryId
  }

  function Key(epoch: TimestampReader): (Item, Item) -> bool { (a: Item, b: Item) => Before(epoch, a, b) }

  lemma BeforeIsTransitive(epoch: TimestampReader, a: Item, b: Item, c: Item)
    requires Before(epoch, a, b) && Before(epoch, b, c)
    ensures Before(epoch, a, c)
  {
    if TextLess(a.requestPath, b.requestPath) && TextLess(b.requestPath, c.requestPath) {
      TextLessTransitive(a.requestPath, b.requestPath, c.requestPath);
    }
    TextLessIsTotal(a.requestPath, b.requestPath);
  }

  lemma KeyIsStrictOrder(epoch: TimestampReader)
    ensures StrictOrder(Key(epoch))
  {
    forall a, b | Key(epoch)(a, b) ensures !Key(epoch)(b, a) {
      TextLessIsTotal(a.requestPath, b.requestPath);
    }
    forall a, b, c | Key(epoch)(a, b) && Key(epoch)(b, c) ensures Key(epoch)(a, c) {
      BeforeIsTransitive(epoch, a, b, c);
    }
  }

  ghost predicate DistinctEntries(s: seq<Item>) {
    forall i, j :: 0 <= i < j < |s| ==> s[i].entryId != s[j].entryId
  }

  lemma DistinctIsComparable(epoch: TimestampReader, s: seq<Item>)
    requires DistinctEntries(s)
    ensures Comparable(Key(epoch), s)
  {
    forall i, j | 0 <= i < j < |s| ensures Key(epoch)(s[i], s[j]) || Key(epoch)(s[j], s[i]) {
      TextLessIsTotal(s[i].requestPath, s[j].requestPath);
    }
  }

  /** The order in which the checksum and the renderer list the items. */
  function Ordered(epoch: TimestampReader, items: seq<Item>): (r: seq<Item>)
    ensures |r| == |items|
    ensures multiset(r) == multiset(items)
  {
    Sort(Key(epoch), items)
  }

  lemma SameItems(epoch: TimestampReader, items: seq<Item>, x: Item)
    ensures x in Ordered(epoch, items) <==> x in items
  {
    assert x in multiset(items) <==> x in items;
    assert x in multiset(Ordered(epoch, items)) <==> x in Ordered(epoch, items);
  }

  /** Listing the items forgets their arrival order when entry ids differ. */
  lemma OrderedForgetsArrival(epoch: TimestampReader, s: seq<Item>, t: seq<Item>)
    requires DistinctEntries(s) && multiset(s) == multiset(t)
    ensures Ordered(epoch, s) == Ordered(epoch, t)
  {
    KeyIsStrictOrder(epoch);
    DistinctIsComparable(epoch, s);
    SortForgetsOrder(Key(epoch), s, t);
  }

  /** The smaller address first; then, each deciding what is left open, path, expiry, recommendation and entry. */
  predicate InOrder(epoch: TimestampReader, a: Item, b: Item) {
    && Address(a) <= Address(b)
    && (Address(a) == Address(b) ==> a.requestPath == b.requestPath || TextLess(a.requestPath, b.requestPath))
    && (Address(a) == Address(b) && a.requestPath == b.requestPath ==>
          && ExpiryMs(epoch, a) <= ExpiryMs(epoch, b)
          && (ExpiryMs(epoch, a) == ExpiryMs(epoch, b) ==> a.recommendationId <= b.recommendationId)
          && (ExpiryMs(epoch, a) == ExpiryMs(epoch, b) && a.recommendationId == b.recommendationId ==>
                a.entryId < b.entryId))
  }

  lemma OrderedAscends(epoch: TimestampReader, s: seq<Item>)
    requires DistinctEntries(s)
    ensures Ascending(Key(epoch), Ordered(epoch, s))
    ensures forall i, j :: 0 <= i < j < |s| ==> InOrder(epoch, Ordered(epoch, s)[i], Ordered(epoch, s)[j])
  {
    KeyIsStrictOrder(epoch);
    DistinctIsComparable(epoch, s);
    SortAscends(Key(epoch), s);
    var r := Ordered(epoch, s);
    forall i, j | 0 <= i < j < |s| ensures InOrder(epoch, r[i], r[j]) {
      assert Key(epoch)(r[i], r[j]);
    }
  }
}
