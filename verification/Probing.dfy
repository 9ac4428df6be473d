/** The requests with which the controller probes a candidate, and why their answers tell. */
module Probing {
  import opened Wrappers
  import opened Text
  import opened Items
  import opened Snapshots
  import opened Render
  import Protocol
  import ReadBack
  import RuleSemantics
  import ReadBackLaws

  ghost function Texts(n: nat): set<string>
    requires n <= IPV4_SPACE
  {
    set v: nat | v < n :: IpText(v)
  }

  /** The first n addresses print as n different texts. */
  lemma {:induction false} TextsCount(n: nat)
    requires n <= IPV4_SPACE
    ensures |Texts(n)| == n
  {
    hide IpText;
    if n > 0 {
      TextsCount(n - 1);
      if IpText(n - 1) in Texts(n - 1) {
        var v: nat :| v < n - 1 && IpText(v) == IpText(n - 1);
        IpTextInjective(v, n - 1);
      }
      assert Texts(n) == Texts(n - 1) + {IpText(n - 1)};
    }
  }

  lemma {:induction false} SetNoLarger(s: seq<string>)
    ensures |set x | x in s| <= |s|
  {
    if s != [] {
      SetNoLarger(s[1..]);
      assert (set x | x in s) == (set x | x in s[1..]) + {s[0]};
    }
  }

  lemma SubsetNoLarger(a: set<string>, b: set<string>)
    requires a <= b
    ensures |a| <= |b|
  {
    assert b == a + (b - a);
  }

  /** The first addresses, all taken, are no more than the sources that take them. */
  lemma Pigeonhole(sources: seq<string>, n: nat)
    requires n <= IPV4_SPACE && forall v: nat :: v < n ==> IpText(v) in sources
    ensures n <= |sources|
  {
    hide IpText;
    var taken := set x | x in sources;
    TextsCount(n);
    assert Texts(n) <= taken;
    SubsetNoLarger(Texts(n), taken);
    SetNoLarger(sources);
  }

  /** The least address whose text is not among the sources. */
  ghost predicate LeastAbsent(sources: seq<string>, v: nat) {
    && v < IPV4_SPACE
    && IpText(v) !in sources
    && forall w: nat :: w < v ==> IpText(w) in sources
  }

  /** _wrong_source: the least absent address, after at most one trial more than there are sources. */
  method WrongSource(sources: seq<string>) returns (r: Option<string>, trials: nat)
    ensures r.Some? ==> exists v: nat :: LeastAbsent(sources, v) && r.value == IpText(v) && trials == v + 1
    ensures r.Some? ==> trials <= |sources| + 1
    ensures r.None? <==> forall v: nat :: v < IPV4_SPACE ==> IpText(v) in sources
    ensures r.None? ==> |sources| >= IPV4_SPACE
  {
    hide IpText;
    var sourceSet := set x | x in sources;
    for value := 0 to IPV4_SPACE
      invariant forall w: nat :: w < value ==> IpText(w) in sources
    {
      var candidate := IpText(value);
      if candidate !in sourceSet {
        assert LeastAbsent(sources, value);
        Pigeonhole(sources, value);
        return Some(candidate), value + 1;
      }
    }
    Pigeonhole(sources, IPV4_SPACE);
    return None, IPV4_SPACE;
  }

  lemma AbsentIsNobody(epoch: TimestampReader, items: seq<Item>, y: Item, wrong: nat)
    requires y in items && CanonicalIp(y.sourceIp)
    requires LeastAbsent(ReadBackLaws.Sources(Ordered(epoch, items)), wrong)
    ensures ParseIp(y.sourceIp) != Some(wrong)
  {
    hide Ordered, ParseIp;
    var ordered := Ordered(epoch, items);
    SameItems(epoch, items, y);
    var i :| 0 <= i < |ordered| && ordered[i] == y;
    assert ReadBackLaws.Sources(ordered)[i] == y.sourceIp;
  }

  /**
   * With a live item, the candidate itself denies the positive probe now, and denies neither
   * the wrong-source probe nor the wrong-path probe at any second.
   */
  lemma ProbesDiscriminate(epoch: TimestampReader, s: Snapshot, now: int, wrong: nat, path: string, second: int)
    requires Valid(epoch, s) && now >= 0 && exists x :: x in s.items && ReadBackLaws.Live(epoch, x, now)
    requires LeastAbsent(ReadBackLaws.Sources(Ordered(epoch, s.items)), wrong) && path != PATH
    ensures var content := SnapshotContent(epoch, s);
      var probe := ReadBack.ProbeRule(content, now);
      && ReadBack.CandidateSources(content) == Some(ReadBackLaws.Sources(Ordered(epoch, s.items)))
      && probe.Some? && ParseIp(probe.value.source).Some?
      && RuleSemantics.TextDenies(content, RuleSemantics.Request(PATH, ParseIp(probe.value.source).value, now))
      && !RuleSemantics.TextDenies(content, RuleSemantics.Request(PATH, wrong, second))
      && !RuleSemantics.TextDenies(content, RuleSemantics.Request(path, ParseIp(probe.value.source).value, second))
  {
    hide Content, ReadBack.ProbeRule, ReadBack.CandidateSources, RuleSemantics.TextDenies, Ordered, Cutoff;
    ReadBackLaws.ValidIsReadable(epoch, s);
    ReadBackLaws.ProbeRuleIsLive(epoch, s.revision, s.items, now);
    ReadBackLaws.SourcesReadBack(epoch, s.revision, s.items);
    var content := SnapshotContent(epoch, s);
    var probe := ReadBack.ProbeRule(content, now).value;
    var x :| x in s.items && ReadBackLaws.Live(epoch, x, now) && probe.source == x.sourceIp;
    var address := ParseIp(probe.source).value;
    RuleSemantics.RenderingPreservesMeaning(epoch, s.revision, s.items, RuleSemantics.Request(PATH, address, now));
    RuleSemantics.RenderingPreservesMeaning(epoch, s.revision, s.items, RuleSemantics.Request(PATH, wrong, second));
    RuleSemantics.RenderingPreservesMeaning(epoch, s.revision, s.items, RuleSemantics.Request(path, address, second));
    assert RuleSemantics.Blocks(epoch, x, RuleSemantics.Request(PATH, address, now));
    forall y | y in s.items ensures !RuleSemantics.Blocks(epoch, y, RuleSemantics.Request(PATH, wrong, second)) {
      AbsentIsNobody(epoch, s.items, y, wrong);
    }
  }

  /**
   * The same for the source that activate passes: the item that lasts longest, as long as it is
   * live; and it is live whenever any item is.
   */
  lemma ChosenProbeDiscriminates(epoch: TimestampReader, s: Snapshot, now: int, wrong: nat, path: string, second: int)
    requires Valid(epoch, s) && now >= 0 && exists x :: x in s.items && ReadBackLaws.Live(epoch, x, now)
    requires LeastAbsent(ReadBackLaws.Sources(Ordered(epoch, s.items)), wrong) && path != PATH
    ensures var content, chosen := SnapshotContent(epoch, s), Protocol.LatestItem(epoch, s.items);
      && ReadBackLaws.Live(epoch, chosen, now) && ParseIp(chosen.sourceIp).Some?
      && RuleSemantics.TextDenies(content, RuleSemantics.Request(PATH, ParseIp(chosen.sourceIp).value, now))
      && !RuleSemantics.TextDenies(content, RuleSemantics.Request(PATH, wrong, second))
      && !RuleSemantics.TextDenies(content, RuleSemantics.Request(path, ParseIp(chosen.sourceIp).value, second))
  {
    ProbesDiscriminate(epoch, s, now, wrong, path, second);
    ReadBackLaws.ValidIsReadable(epoch, s);
    var chosen := Protocol.LatestItem(epoch, s.items);
    assert CanonicalIp(chosen.sourceIp);
    hide Content, RuleSemantics.TextDenies, ReadBack.ProbeRule, ReadBack.CandidateSources, Ordered, Cutoff, ParseIp,
      Valid;
    var x :| x in s.items && ReadBackLaws.Live(epoch, x, now);
    var address := ParseIp(chosen.sourceIp).value;
    RuleSemantics.RenderingPreservesMeaning(epoch, s.revision, s.items, RuleSemantics.Request(PATH, address, now));
    RuleSemantics.RenderingPreservesMeaning(epoch, s.revision, s.items, RuleSemantics.Request(path, address, second));
    assert RuleSemantics.Blocks(epoch, chosen, RuleSemantics.Request(PATH, address, now));
  }

  /** The rules of a validated snapshot stand in the order of their addresses: the k-th smallest has the k-th id. */
  lemma SourcesAscend(epoch: TimestampReader, s: Snapshot, i: nat, j: nat)
    requires Valid(epoch, s) && i < j < |s.items|
    ensures var sources := ReadBackLaws.Sources(Ordered(epoch, s.items));
      && |sources| == |s.items| && ParseIp(sources[i]).Some? && ParseIp(sources[j]).Some?
      && ParseIp(sources[i]).value < ParseIp(sources[j]).value
  {
    var ordered := Ordered(epoch, s.items);
    ValidIsDistinct(epoch, s);
    OrderedAscends(epoch, s.items);
    RuleSemantics.ValidIsRenderable(epoch, s);
    assert ordered[i] in ordered && ordered[j] in ordered;
    SameItems(epoch, s.items, ordered[i]);
    SameItems(epoch, s.items, ordered[j]);
    assert ValidItems(epoch, s.items) && CanonicalIp(ordered[i].sourceIp) && CanonicalIp(ordered[j].sourceIp);
    assert Key(epoch)(ordered[i], ordered[j]);
    hide Valid, ValidItems, Ordered, ParseIp, CanonicalIp;
    if ParseIp(ordered[i].sourceIp) == ParseIp(ordered[j].sourceIp) {
      RuleSemantics.SameSourceIsSameItem(epoch, s.items, ordered[i], ordered[j]);
    }
  }
}
