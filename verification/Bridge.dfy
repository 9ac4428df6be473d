/** The audit bridge: each line is skipped as a duplicate or posted, and the posts keep their distance. */
module Bridge {
  import opened DedupCache

  const DEDUP_MAX_ENTRIES := 10_000
  const DEDUP_TTL := 3600.0

  /** What decoding and normalising a line yields. */
  datatype Reading = Rejected | InternalProbe | Normal(id: string)

  /** What posting, with its retries, yields: a status, or an exception. */
  datatype Answer = Status(code: int) | Raised

  /** A line of the log, when the cache is asked about it, and when and how its post would be answered. */
  datatype Arrival = Arrival(line: string, reading: Reading, checkedAt: real, answer: Answer, answeredAt: real)

  datatype Verdict = Ignored | Failed | SkippedProbe | SkippedDuplicate | Posted

  predicate Space(c: char) {
    || '\t' <= c <= '\r' || '\U{1c}' <= c <= ' ' || c == '\U{85}' || c == '\U{a0}' || c == '\U{1680}'
    || '\U{2000}' <= c <= '\U{200a}' || c == '\U{2028}' || c == '\U{2029}' || c == '\U{202f}'
    || c == '\U{205f}' || c == '\U{3000}'
  }

  /** What str.isspace() accepts. */
  lemma SpacesAre(c: char)
    ensures Space(c) <==>
      c as int in {9, 10, 11, 12, 13, 28, 29, 30, 31, 32, 133, 160, 5760, 8192, 8193, 8194, 8195, 8196, 8197, 8198,
                   8199, 8200, 8201, 8202, 8232, 8233, 8239, 8287, 12288}
  {
  }

  /** Nothing is left after strip(). */
  predicate Blank(line: string) {
    forall i :: 0 <= i < |line| ==> Space(line[i])
  }

  lemma BlankIff(line: string)
    ensures Blank(line) <==> forall c :: c in line ==> Space(c)
  {
    hide Space;
    if Blank(line) {
      forall c | c in line ensures Space(c) {
        var i :| 0 <= i < |line| && line[i] == c;
      }
    }
  }

  predicate Accepted(answer: Answer) {
    answer.Status? && 200 <= answer.code < 300
  }

  // ------------------------------------------------------- the specification

  /** What becomes of a line, given all the posts before it. */
  ghost function Judge(posts: seq<Entry>, a: Arrival, ttl: real, maxEntries: nat): Verdict {
    if Blank(a.line) then Ignored
    else match a.reading
      case Rejected => Failed
      case InternalProbe => SkippedProbe
      case Normal(id) =>
        if Member(posts, id, a.checkedAt, ttl, maxEntries) then SkippedDuplicate
        else if Accepted(a.answer) then Posted
        else Failed
  }

  ghost function Recorded(posts: seq<Entry>, a: Arrival, ttl: real, maxEntries: nat): seq<Entry> {
    if Judge(posts, a, ttl, maxEntries) == Posted then posts + [Entry(a.reading.id, a.answeredAt)] else posts
  }

  /** The posts a run makes. */
  ghost function Posts(run: seq<Arrival>, ttl: real, maxEntries: nat): seq<Entry> {
    if run == [] then []
    else Recorded(Posts(run[..|run| - 1], ttl, maxEntries), run[|run| - 1], ttl, maxEntries)
  }

  ghost function VerdictAt(run: seq<Arrival>, n: nat, ttl: real, maxEntries: nat): Verdict
    requires n < |run|
  {
    Judge(Posts(run[..n], ttl, maxEntries), run[n], ttl, maxEntries)
  }

  /** How many lines of the run meet with a verdict. */
  ghost function Count(run: seq<Arrival>, v: Verdict, ttl: real, maxEntries: nat): nat {
    if run == [] then 0
    else
      var last := |run| - 1;
      Count(run[..last], v, ttl, maxEntries) + if VerdictAt(run, last, ttl, maxEntries) == v then 1 else 0
  }

  /** The clock never goes back. */
  ghost predicate Timed(run: seq<Arrival>, start: real) {
    && (forall n :: 0 <= n < |run| ==> start <= run[n].checkedAt <= run[n].answeredAt)
    && (forall m, n :: 0 <= m < n < |run| ==> run[m].answeredAt <= run[n].checkedAt)
  }

  // ------------------------------------------------------------------ the laws

  lemma BlankIsIgnored(posts: seq<Entry>, a: Arrival, ttl: real, maxEntries: nat)
    ensures Judge(posts, a, ttl, maxEntries) == Ignored <==> Blank(a.line)
  {
    hide Member, Blank;
  }

  lemma StepOfRun(run: seq<Arrival>, n: nat, ttl: real, maxEntries: nat)
    requires n < |run|
    ensures Posts(run[..n + 1], ttl, maxEntries) == Recorded(Posts(run[..n], ttl, maxEntries), run[n], ttl, maxEntries)
    ensures forall v :: Count(run[..n + 1], v, ttl, maxEntries)
                     == Count(run[..n], v, ttl, maxEntries) + if VerdictAt(run, n, ttl, maxEntries) == v then 1 else 0
  {
    hide Judge;
    assert run[..n + 1][..n] == run[..n];
  }

  /** Every line meets exactly one verdict, and the posts are the lines that were posted. */
  lemma {:induction false} EveryLineIsCounted(run: seq<Arrival>, ttl: real, maxEntries: nat)
    ensures |run| == Count(run, Ignored, ttl, maxEntries) + Count(run, Failed, ttl, maxEntries)
                     + Count(run, SkippedProbe, ttl, maxEntries) + Count(run, SkippedDuplicate, ttl, maxEntries)
                     + Count(run, Posted, ttl, maxEntries)
    ensures |Posts(run, ttl, maxEntries)| == Count(run, Posted, ttl, maxEntries)
  {
    hide Judge;
    if run != [] {
      EveryLineIsCounted(run[..|run| - 1], ttl, maxEntries);
    }
  }

  /** The ids other than the i-th one, posted between the i-th and the j-th post. */
  ghost function OthersBetween(posts: seq<Entry>, i: nat, j: nat): set<string>
    requires i < j <= |posts|
  {
    set k | i < k < j && posts[k].id != posts[i].id :: posts[k].id
  }

  /** One id posted twice: the TTL passed, or that many other ids were posted between. */
  ghost predicate KeepsDistance(posts: seq<Entry>, i: nat, j: nat, ttl: real, maxEntries: nat)
    requires i < j < |posts|
  {
    posts[i].id == posts[j].id ==>
      posts[j].seenAt - posts[i].seenAt >= ttl || |OthersBetween(posts, i, j)| >= maxEntries
  }

  lemma {:induction false} LastAddFrom(posts: seq<Entry>, i: nat) returns (k: nat)
    requires i < |posts|
    ensures i <= k && LastAdd(posts, k) && posts[k].id == posts[i].id
    decreases |posts| - i
  {
    if n: nat :| i < n < |posts| && posts[n].id == posts[i].id {
      k := LastAddFrom(posts, n);
    } else {
      k := i;
    }
  }

  lemma {:induction false} SubsetCount(a: set<string>, b: set<string>)
    requires a <= b
    ensures |a| <= |b|
  {
    if a != {} {
      var x :| x in a;
      SubsetCount(a - {x}, b - {x});
    }
  }

  /** A post of a non-member keeps its distance to every earlier post of the same id. */
  lemma NonMemberKeepsDistance(posts: seq<Entry>, e: Entry, now: real, i: nat, ttl: real, maxEntries: nat)
    requires Ordered(posts) && i < |posts| && now <= e.seenAt && !Member(posts, e.id, now, ttl, maxEntries)
    ensures KeepsDistance(posts + [e], i, |posts|, ttl, maxEntries)
  {
    if posts[i].id == e.id {
      var k := LastAddFrom(posts, i);
      var all := posts + [e];
      assert posts[i].seenAt <= posts[k].seenAt;
      if now - posts[k].seenAt < ttl {
        forall x | x in IdsAfter(posts, k) ensures x in OthersBetween(all, i, |posts|) {
          var m :| k < m < |posts| && posts[m].id == x;
          assert all[m] == posts[m];
        }
        SubsetCount(IdsAfter(posts, k), OthersBetween(all, i, |posts|));
      }
    }
  }

  lemma DistanceIsKept(posts: seq<Entry>, e: Entry, i: nat, j: nat, ttl: real, maxEntries: nat)
    requires i < j < |posts| && KeepsDistance(posts, i, j, ttl, maxEntries)
    ensures KeepsDistance(posts + [e], i, j, ttl, maxEntries)
  {
    var all := posts + [e];
    assert forall k :: 0 <= k < |posts| ==> all[k] == posts[k];
    assert OthersBetween(all, i, j) == OthersBetween(posts, i, j);
  }

  ghost predicate PostsUpTo(posts: seq<Entry>, now: real) {
    forall x :: x in posts ==> x.seenAt <= now
  }

  lemma {:induction false} PostsAreOrdered(run: seq<Arrival>, start: real, ttl: real, maxEntries: nat)
    requires Timed(run, start)
    ensures Ordered(Posts(run, ttl, maxEntries))
    ensures run != [] ==> PostsUpTo(Posts(run, ttl, maxEntries), run[|run| - 1].answeredAt)
    ensures run != [] ==> PostsUpTo(Posts(run[..|run| - 1], ttl, maxEntries), run[|run| - 1].checkedAt)
  {
    hide Judge;
    if run != [] {
      PostsAreOrdered(run[..|run| - 1], start, ttl, maxEntries);
    }
  }

  lemma JudgedPosted(posts: seq<Entry>, a: Arrival, ttl: real, maxEntries: nat)
    requires Judge(posts, a, ttl, maxEntries) == Posted
    ensures !Blank(a.line) && a.reading.Normal? && Accepted(a.answer)
    ensures !Member(posts, a.reading.id, a.checkedAt, ttl, maxEntries)
  {
    hide Member, Blank;
  }

  /** Over a whole run, two posts of one id are a TTL apart, or as many other ids as the cache holds. */
  lemma {:induction false} PostsKeepDistance(run: seq<Arrival>, start: real, i: nat, j: nat, ttl: real, maxEntries: nat)
    requires Timed(run, start) && i < j < |Posts(run, ttl, maxEntries)|
    ensures KeepsDistance(Posts(run, ttl, maxEntries), i, j, ttl, maxEntries)
  {
    hide Judge, Member, Ordered, KeepsDistance;
    var front, a := run[..|run| - 1], run[|run| - 1];
    var posts := Posts(front, ttl, maxEntries);
    if j < |posts| {
      PostsKeepDistance(front, start, i, j, ttl, maxEntries);
      if Judge(posts, a, ttl, maxEntries) == Posted {
        JudgedPosted(posts, a, ttl, maxEntries);
        DistanceIsKept(posts, Entry(a.reading.id, a.answeredAt), i, j, ttl, maxEntries);
      }
    } else {
      JudgedPosted(posts, a, ttl, maxEntries);
      PostsAreOrdered(front, start, ttl, maxEntries);
      NonMemberKeepsDistance(posts, Entry(a.reading.id, a.answeredAt), a.checkedAt, i, ttl, maxEntries);
    }
  }

  lemma {:induction false} PostsGrow(run: seq<Arrival>, n: nat, ttl: real, maxEntries: nat)
    requires n <= |run|
    ensures Posts(run[..n], ttl, maxEntries) <= Posts(run, ttl, maxEntries)
  {
    hide Judge;
    if n == |run| {
      assert run[..n] == run;
    } else {
      assert run[..|run| - 1][..n] == run[..n];
      PostsGrow(run[..|run| - 1], n, ttl, maxEntries);
    }
  }

  /** An event that does not fail is delivered: by its own post or by one less than a TTL before it. */
  lemma UnfailedEventIsDelivered(run: seq<Arrival>, n: nat, ttl: real, maxEntries: nat) returns (i: nat)
    requires n < |run| && run[n].reading.Normal? && !Blank(run[n].line) && ttl > 0.0
    requires run[n].checkedAt <= run[n].answeredAt
    requires VerdictAt(run, n, ttl, maxEntries) != Failed
    ensures i < |Posts(run, ttl, maxEntries)| && Posts(run, ttl, maxEntries)[i].id == run[n].reading.id
    ensures run[n].checkedAt - Posts(run, ttl, maxEntries)[i].seenAt < ttl
  {
    hide Blank;
    var before := Posts(run[..n], ttl, maxEntries);
    PostsGrow(run, n, ttl, maxEntries);
    PostsGrow(run, n + 1, ttl, maxEntries);
    StepOfRun(run, n, ttl, maxEntries);
    if Member(before, run[n].reading.id, run[n].checkedAt, ttl, maxEntries) {
      i :| LastAdd(before, i) && before[i].id == run[n].reading.id && run[n].checkedAt - before[i].seenAt < ttl;
    } else {
      i := |before|;
    }
  }

  // ------------------------------------------------------------ the operations

  /** _process_event_line: ask the cache, post, and remember an accepted post. */
  method ProcessEventLine(a: Arrival, cache: TransactionDedupCache) returns (ok: bool, posted: bool)
    requires cache.Valid() && cache.clock <= a.checkedAt <= a.answeredAt && !Blank(a.line)
    modifies cache
    ensures cache.Valid() && old(cache.clock) <= cache.clock <= a.answeredAt
    ensures cache.history == Recorded(old(cache.history), a, cache.ttl, cache.maxEntries)
    ensures var v := Judge(old(cache.history), a, cache.ttl, cache.maxEntries);
      posted == v.Posted? && ok == !v.Failed?
  {
    hide Member, Blank;
    match a.reading
    case Rejected => return false, false;
    case InternalProbe => return true, false;
    case Normal(id) =>
      var duplicate := cache.Contains(id, a.checkedAt);
      if duplicate {
        return true, false;
      }
      if a.answer.Status? && 200 <= a.answer.code < 300 {
        cache.Add(id, a.answeredAt);
        return true, true;
      }
      return false, false;
  }

  /** run_bridge: total, success and failed are counts over the run, and its posts keep their distance. */
  method RunBridge(run: seq<Arrival>, ghost start: real) returns (total: nat, success: nat, failed: nat)
    requires Timed(run, start)
    ensures total == |run| - Count(run, Ignored, DEDUP_TTL, DEDUP_MAX_ENTRIES)
    ensures success == Count(run, Posted, DEDUP_TTL, DEDUP_MAX_ENTRIES)
    ensures success == |Posts(run, DEDUP_TTL, DEDUP_MAX_ENTRIES)|
    ensures failed == Count(run, Failed, DEDUP_TTL, DEDUP_MAX_ENTRIES)
    ensures total == success + failed
                     + Count(run, SkippedProbe, DEDUP_TTL, DEDUP_MAX_ENTRIES)
                     + Count(run, SkippedDuplicate, DEDUP_TTL, DEDUP_MAX_ENTRIES)
    ensures forall i, j :: 0 <= i < j < success ==>
      KeepsDistance(Posts(run, DEDUP_TTL, DEDUP_MAX_ENTRIES), i, j, 3600.0, 10_000)
  {
    hide Member, Blank, Judge, KeepsDistance;
    total, success, failed := 0, 0, 0;
    var seen := new TransactionDedupCache(DEDUP_MAX_ENTRIES, DEDUP_TTL, start);
    for n := 0 to |run|
      invariant seen.Valid() && seen.ttl == DEDUP_TTL && seen.maxEntries == DEDUP_MAX_ENTRIES
      invariant start <= seen.clock && forall m :: n <= m < |run| ==> seen.clock <= run[m].checkedAt
      invariant seen.history == Posts(run[..n], seen.ttl, seen.maxEntries)
      invariant total == n - Count(run[..n], Ignored, seen.ttl, seen.maxEntries)
      invariant success == Count(run[..n], Posted, seen.ttl, seen.maxEntries)
      invariant failed == Count(run[..n], Failed, seen.ttl, seen.maxEntries)
    {
      StepOfRun(run, n, seen.ttl, seen.maxEntries);
      BlankIsIgnored(seen.history, run[n], seen.ttl, seen.maxEntries);
      if !Blank(run[n].line) {
        total := total + 1;
        var ok, posted := ProcessEventLine(run[n], seen);
        if posted {
          success := success + 1;
        } else if !ok {
          failed := failed + 1;
        }
      }
    }
    assert run[..|run|] == run;
    EveryLineIsCounted(run, seen.ttl, seen.maxEntries);
    forall i, j | 0 <= i < j < success ensures KeepsDistance(seen.history, i, j, seen.ttl, seen.maxEntries) {
      PostsKeepDistance(run, start, i, j, seen.ttl, seen.maxEntries);
    }
  }
}
