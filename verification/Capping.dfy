/** Capping oversized clusters by sampling each label in proportion, over exact rationals. */
module Capping {
  const MAX_CLUSTER_SIZE: nat := 100

  datatype Row = Row(payload: int, finalLabel: string)

  /** Python's round(n / d): to the nearest integer, halves to the even one. */
  function RoundHalfEven(n: nat, d: nat): nat
    requires d > 0
  {
    var q, rest := n / d, n % d;
    if 2 * rest < d || (2 * rest == d && q % 2 == 0) then q else q + 1
  }

  lemma Product(a: int, b: int, c: int)
    requires a <= b && 0 <= c
    ensures a * c <= b * c
  {
  }

  lemma QuotientProduct(n: nat, d: nat)
    requires d > 0
    ensures (n / d) * d + n % d == n && (n / d + 1) * d == (n / d) * d + d
  {
  }

  /** The rounded quotient is off by at most one half. */
  lemma RoundingError(n: nat, d: nat)
    requires d > 0
    ensures 2 * n - d <= 2 * (RoundHalfEven(n, d) * d) <= 2 * n + d
  {
    QuotientProduct(n, d);
  }

  /** A quotient halfway between two integers goes to the even one. */
  lemma HalfGoesToEven(n: nat, d: nat)
    requires d > 0 && 2 * (n % d) == d
    ensures RoundHalfEven(n, d) % 2 == 0
  {
  }

  /** max(1, round(count / size * MAX_CLUSTER_SIZE)). */
  function SampleSize(count: nat, size: nat): nat
    requires size > 0
  {
    var n := RoundHalfEven(count * MAX_CLUSTER_SIZE, size);
    if n > 1 then n else 1
  }

  /** A label that is present is never asked for more rows than it has, nor for none. */
  lemma SampleFits(count: nat, size: nat)
    requires 0 < count <= size && size > MAX_CLUSTER_SIZE
    ensures 1 <= SampleSize(count, size) <= count
    ensures SampleSize(count, size) * size < count * MAX_CLUSTER_SIZE + size
  {
    var n := RoundHalfEven(count * MAX_CLUSTER_SIZE, size);
    RoundingError(count * MAX_CLUSTER_SIZE, size);
    hide RoundHalfEven;
    Product(MAX_CLUSTER_SIZE, size, count);
    assert (count + 1) * size == count * size + size;
    if n > count {
      Product(count + 1, n, size);
      assert false;
    }
  }

  /** A part within half a row of the label's exact share, and more only when that would be nothing. */
  predicate FairShare(part: nat, count: nat, size: nat) {
    && part >= 1
    && 2 * (part * size) >= 2 * (count * MAX_CLUSTER_SIZE) - size
    && (part > 1 ==> 2 * (part * size) <= 2 * (count * MAX_CLUSTER_SIZE) + size)
  }

  lemma SampleIsFair(count: nat, size: nat)
    requires 0 < count <= size && size > MAX_CLUSTER_SIZE
    ensures FairShare(SampleSize(count, size), count, size)
  {
    var n := RoundHalfEven(count * MAX_CLUSTER_SIZE, size);
    RoundingError(count * MAX_CLUSTER_SIZE, size);
    hide RoundHalfEven;
    if n < 1 {
      Product(n, 1, size);
    }
  }

  function WithLabel(rows: seq<Row>, l: string): (r: seq<Row>)
    ensures forall x :: x in r ==> x.finalLabel == l
    ensures multiset(r) <= multiset(rows)
  {
    if rows == [] then []
    else
      assert rows == [rows[0]] + rows[1..];
      if rows[0].finalLabel == l then [rows[0]] + WithLabel(rows[1..], l) else WithLabel(rows[1..], l)
  }

  function Count(rows: seq<Row>, l: string): nat { |WithLabel(rows, l)| }

  /** The labels that occur, each once. */
  function Labels(rows: seq<Row>): (r: seq<string>)
    ensures forall l :: l in r <==> exists x :: x in rows && x.finalLabel == l
    ensures forall i, j :: 0 <= i < j < |r| ==> r[i] != r[j]
  {
    if rows == [] then []
    else
      var rest := Labels(rows[1..]);
      assert forall x :: x in rows <==> x == rows[0] || x in rows[1..];
      if rows[0].finalLabel in rest then rest else [rows[0].finalLabel] + rest
  }

  function Total(rows: seq<Row>, labels: seq<string>): nat {
    if labels == [] then 0 else Count(rows, labels[0]) + Total(rows, labels[1..])
  }

  lemma {:induction false} CountConcat(a: seq<Row>, b: seq<Row>, l: string)
    ensures WithLabel(a + b, l) == WithLabel(a, l) + WithLabel(b, l)
  {
    if a == [] {
      assert a + b == b;
    } else {
      assert (a + b)[1..] == a[1..] + b;
      CountConcat(a[1..], b, l);
    }
  }

  lemma {:induction false} SampleOfAll(rows: seq<Row>, l: string)
    ensures |WithLabel(rows, l)| <= |rows|
  {
    if rows != [] {
      SampleOfAll(rows[1..], l);
    }
  }

  lemma {:induction false} PresentIsCounted(rows: seq<Row>, l: string)
    requires exists x :: x in rows && x.finalLabel == l
    ensures 0 < Count(rows, l) <= |rows|
  {
    SampleOfAll(rows, l);
    var x :| x in rows && x.finalLabel == l;
    if rows[0].finalLabel != l {
      assert x in rows[1..];
      PresentIsCounted(rows[1..], l);
    }
  }

  /** Rows of other labels do not count: the labels that occur share the rows out. */
  lemma {:induction false} TotalSkips(row: Row, rows: seq<Row>, labels: seq<string>)
    requires row.finalLabel !in labels
    ensures Total([row] + rows, labels) == Total(rows, labels)
  {
    if labels != [] {
      assert ([row] + rows)[1..] == rows;
      TotalSkips(row, rows, labels[1..]);
    }
  }

  lemma {:induction false} TotalCounts(row: Row, rows: seq<Row>, labels: seq<string>)
    requires row.finalLabel in labels && forall i, j :: 0 <= i < j < |labels| ==> labels[i] != labels[j]
    ensures Total([row] + rows, labels) == 1 + Total(rows, labels)
  {
    assert ([row] + rows)[1..] == rows;
    if labels[0] == row.finalLabel {
      TotalSkips(row, rows, labels[1..]);
    } else {
      TotalCounts(row, rows, labels[1..]);
    }
  }

  lemma {:induction false} NotPresent(rows: seq<Row>, l: string)
    requires forall x :: x in rows ==> x.finalLabel != l
    ensures Count(rows, l) == 0
  {
    if rows != [] {
      NotPresent(rows[1..], l);
    }
  }

  lemma {:induction false} LabelsShareRows(rows: seq<Row>)
    ensures Total(rows, Labels(rows)) == |rows|
  {
    if rows != [] {
      LabelsShareRows(rows[1..]);
      assert [rows[0]] + rows[1..] == rows;
      var rest := Labels(rows[1..]);
      if rows[0].finalLabel in rest {
        TotalCounts(rows[0], rows[1..], rest);
      } else {
        TotalCounts(rows[0], rows[1..], Labels(rows));
        TotalSkips(rows[0], rows[1..], rest);
        NotPresent(rows[1..], rows[0].finalLabel);
      }
    }
  }

  /** group.sample(n): any n of the rows; asking for more raises. */
  method Sample(rows: seq<Row>, n: nat) returns (r: seq<Row>)
    requires n <= |rows|
    ensures |r| == n && multiset(r) <= multiset(rows)
  {
    r := rows[..n];
    assert rows == rows[..n] + rows[n..];
  }

  /** What capping keeps of one oversized cluster. */
  ghost predicate Stratified(group: seq<Row>, kept: seq<Row>) {
    && multiset(kept) <= multiset(group)
    && (forall l :: l in Labels(group) ==>
          1 <= Count(kept, l) == SampleSize(Count(group, l), |group|) <= Count(group, l))
    && (forall l :: l in Labels(group) ==> FairShare(Count(kept, l), Count(group, l), |group|))
    && 200 - |Labels(group)| <= 2 * |kept| && |kept| <= 100 + |Labels(group)| - 1
  }

  lemma {:induction false} AllCounted(rows: seq<Row>, l: string)
    requires forall x :: x in rows ==> x.finalLabel == l
    ensures Count(rows, l) == |rows|
  {
    if rows != [] {
      AllCounted(rows[1..], l);
    }
  }

  lemma {:induction false} TotalSnoc(rows: seq<Row>, labels: seq<string>, l: string)
    ensures Total(rows, labels + [l]) == Total(rows, labels) + Count(rows, l)
  {
    if labels == [] {
      assert [] + [l] == [l];
      assert Total(rows, [l][1..]) == 0;
    } else {
      assert (labels + [l])[1..] == labels[1..] + [l];
      TotalSnoc(rows, labels[1..], l);
    }
  }

  /** What holds while the labels are worked through: done labels are sampled, others untouched. */
  ghost predicate SampledSoFar(group: seq<Row>, done: seq<string>, kept: seq<Row>)
    requires |group| > 0
  {
    && (forall l :: l in done ==> Count(kept, l) == SampleSize(Count(group, l), |group|))
    && (forall x :: x in kept ==> x.finalLabel in done)
    && multiset(kept) <= multiset(group)
  }

  lemma PartHasLabel(group: seq<Row>, l: string, part: seq<Row>)
    requires multiset(part) <= multiset(WithLabel(group, l))
    ensures forall x :: x in part ==> x.finalLabel == l
    ensures multiset(part) <= multiset(group)
  {
    forall x | x in part ensures x.finalLabel == l {
      assert x in multiset(part);
      assert x in multiset(WithLabel(group, l));
    }
  }

  lemma SampleAdds(kept: seq<Row>, part: seq<Row>, l: string, m: string)
    requires (forall x :: x in part ==> x.finalLabel == l) && forall x :: x in kept ==> x.finalLabel != l
    ensures Count(kept + part, m) == if m == l then |part| else Count(kept, m)
  {
    CountConcat(kept, part, m);
    if m == l {
      NotPresent(kept, l);
      AllCounted(part, l);
    } else {
      NotPresent(part, m);
    }
  }

  lemma DisjointSamples(group: seq<Row>, kept: seq<Row>, part: seq<Row>, l: string)
    requires (forall x :: x in part ==> x.finalLabel == l) && forall x :: x in kept ==> x.finalLabel != l
    requires multiset(kept) <= multiset(group) && multiset(part) <= multiset(group)
    ensures multiset(kept + part) <= multiset(group)
  {
    forall x ensures multiset(kept + part)[x] <= multiset(group)[x] {
      if x.finalLabel == l {
        assert x !in multiset(kept);
      } else {
        assert x !in multiset(part);
      }
    }
  }

  lemma SampleStep(group: seq<Row>, done: seq<string>, kept: seq<Row>, l: string, part: seq<Row>)
    requires |group| > 0 && SampledSoFar(group, done, kept) && l !in done
    requires multiset(part) <= multiset(WithLabel(group, l)) && |part| == SampleSize(Count(group, l), |group|)
    ensures SampledSoFar(group, done + [l], kept + part)
  {
    hide SampleSize, Count, WithLabel;
    PartHasLabel(group, l, part);
    DisjointSamples(group, kept, part, l);
    forall m | m in done + [l] ensures Count(kept + part, m) == SampleSize(Count(group, m), |group|) {
      SampleAdds(kept, part, l, m);
    }
  }

  /** The running bounds: each label adds its share, at most half a row less and strictly less than one row more. */
  ghost predicate Bounded(total: nat, labels: nat, kept: nat, size: nat) {
    && kept * size + (if labels > 0 then 1 else 0) <= total * MAX_CLUSTER_SIZE + labels * size
    && 2 * (total * MAX_CLUSTER_SIZE) <= 2 * (kept * size) + labels * size
  }

  lemma BoundStep(total: nat, labels: nat, kept: nat, size: nat, count: nat, part: nat)
    requires Bounded(total, labels, kept, size)
    requires part * size < count * MAX_CLUSTER_SIZE + size && FairShare(part, count, size)
    ensures Bounded(total + count, labels + 1, kept + part, size)
  {
    assert (kept + part) * size == kept * size + part * size;
    assert (labels + 1) * size == labels * size + size;
  }

  lemma BoundEnd(size: nat, labels: nat, kept: nat)
    requires Bounded(size, labels, kept, size) && size > 0 && labels > 0
    ensures kept <= MAX_CLUSTER_SIZE + labels - 1
  {
    assert (MAX_CLUSTER_SIZE + labels) * size == MAX_CLUSTER_SIZE * size + labels * size;
    if kept >= MAX_CLUSTER_SIZE + labels {
      Product(MAX_CLUSTER_SIZE + labels, kept, size);
      assert false;
    }
  }

  lemma LowerBoundEnd(size: nat, labels: nat, kept: nat)
    requires Bounded(size, labels, kept, size) && size > 0
    ensures 2 * MAX_CLUSTER_SIZE - labels <= 2 * kept
  {
    assert (2 * kept + labels) * size == 2 * (kept * size) + labels * size;
    assert (2 * kept + labels + 1) * size == (2 * kept + labels) * size + size;
    if 2 * kept + labels < 2 * MAX_CLUSTER_SIZE {
      Product(2 * kept + labels + 1, 2 * MAX_CLUSTER_SIZE, size);
      assert false;
    }
  }

  lemma StartSampling(group: seq<Row>)
    requires |group| > 0
    ensures SampledSoFar(group, Labels(group)[..0], []) && Bounded(Total(group, Labels(group)[..0]), 0, 0, |group|)
  {
  }

  lemma FinishSampling(group: seq<Row>, kept: seq<Row>)
    requires |group| > MAX_CLUSTER_SIZE && SampledSoFar(group, Labels(group), kept)
    requires Bounded(Total(group, Labels(group)), |Labels(group)|, |kept|, |group|)
    ensures Stratified(group, kept)
  {
    hide SampleSize, WithLabel;
    LabelsShareRows(group);
    assert group[0].finalLabel in Labels(group);
    BoundEnd(|group|, |Labels(group)|, |kept|);
    LowerBoundEnd(|group|, |Labels(group)|, |kept|);
    hide FairShare, Bounded;
    forall l | l in Labels(group)
      ensures 1 <= Count(kept, l) <= Count(group, l) && FairShare(Count(kept, l), Count(group, l), |group|)
    {
      PresentIsCounted(group, l);
      SampleFits(Count(group, l), |group|);
      SampleIsFair(Count(group, l), |group|);
    }
  }

  /** The sampling loop over the labels of one oversized cluster. */
  method SampleCluster(group: seq<Row>) returns (kept: seq<Row>)
    requires |group| > MAX_CLUSTER_SIZE
    ensures Stratified(group, kept)
  {
    hide SampleSize, Bounded, SampledSoFar, WithLabel, FairShare;
    var labels := Labels(group);
    kept := [];
    StartSampling(group);
    for i := 0 to |labels|
      invariant SampledSoFar(group, labels[..i], kept)
      invariant Bounded(Total(group, labels[..i]), i, |kept|, |group|)
    {
      var l := labels[i];
      var rows := WithLabel(group, l);
      assert l in labels;
      PresentIsCounted(group, l);
      SampleFits(|rows|, |group|);
      SampleIsFair(|rows|, |group|);
      var part := Sample(rows, SampleSize(|rows|, |group|));
      SampleStep(group, labels[..i], kept, l, part);
      TotalSnoc(group, labels[..i], l);
      BoundStep(Total(group, labels[..i]), i, |kept|, |group|, |rows|, |part|);
      kept := kept + part;
      assert labels[..i + 1] == labels[..i] + [l];
    }
    assert labels[..|labels|] == labels;
    FinishSampling(group, kept);
  }

  /** One group of the capping loop. */
  ghost predicate Capped(group: seq<Row>, kept: seq<Row>) {
    if |group| <= 100 then kept == group else Stratified(group, kept)
  }

  function Rows(groups: seq<seq<Row>>): nat {
    if groups == [] then 0 else |groups[0]| + Rows(groups[1..])
  }

  lemma {:induction false} RowsSnoc(groups: seq<seq<Row>>, g: seq<Row>)
    ensures Rows(groups + [g]) == Rows(groups) + |g|
  {
    if groups == [] {
      assert [] + [g] == [g];
      assert Rows([g][1..]) == 0;
    } else {
      assert (groups + [g])[1..] == groups[1..] + [g];
      RowsSnoc(groups[1..], g);
    }
  }

  lemma KeepsNoMore(group: seq<Row>, kept: seq<Row>)
    requires Stratified(group, kept)
    ensures |kept| <= |group|
  {
    assert |multiset(kept)| == |kept| && |multiset(group)| == |group|;
    assert multiset(group) == multiset(kept) + (multiset(group) - multiset(kept));
  }

  /** The capping loop over all clusters, and the number of rows it drops. */
  method CapClusters(groups: seq<seq<Row>>) returns (frames: seq<seq<Row>>, rowsCapped: nat)
    ensures |frames| == |groups| && forall i :: 0 <= i < |groups| ==> Capped(groups[i], frames[i])
    ensures rowsCapped == Rows(groups) - Rows(frames)
  {
    hide Stratified;
    frames := [];
    rowsCapped := 0;
    for i := 0 to |groups|
      invariant |frames| == i && forall k :: 0 <= k < i ==> Capped(groups[k], frames[k])
      invariant rowsCapped == Rows(groups[..i]) - Rows(frames)
    {
      var kept := groups[i];
      if |groups[i]| > MAX_CLUSTER_SIZE {
        kept := SampleCluster(groups[i]);
        KeepsNoMore(groups[i], kept);
      }
      RowsSnoc(groups[..i], groups[i]);
      RowsSnoc(frames, kept);
      assert groups[..i + 1] == groups[..i] + [groups[i]];
      frames := frames + [kept];
      rowsCapped := rowsCapped + (|groups[i]| - |kept|);
    }
    assert groups[..|groups|] == groups;
  }
}
