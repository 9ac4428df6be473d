/** Following an append-only log: every complete line is consumed once, in order, whatever the schedule. */
module Follower {
  import opened Wrappers
  import opened DedupCache
  import opened Bridge

  // ------------------------------------------------------- the specification

  /** One line with its newline, which is its last character and its only one. */
  predicate IsLine(s: string) {
    s != [] && s[|s| - 1] == '\n' && forall k :: 0 <= k < |s| - 1 ==> s[k] != '\n'
  }

  predicate AllLines(lines: seq<string>) {
    forall k :: 0 <= k < |lines| ==> IsLine(lines[k])
  }

  function Concat(lines: seq<string>): string {
    if lines == [] then [] else lines[0] + Concat(lines[1..])
  }

  /** Where the first line ends, newline included, if it does. */
  function LineEnd(text: string): (n: nat)
    ensures n <= |text|
    ensures n == 0 <==> '\n' !in text
    ensures n > 0 ==> IsLine(text[..n])
  {
    if text == [] then 0
    else if text[0] == '\n' then 1
    else
      var n := LineEnd(text[1..]);
      assert text == [text[0]] + text[1..];
      if n == 0 then 0
      else
        assert text[..n + 1] == [text[0]] + text[1..][..n];
        n + 1
  }

  /** The complete lines of a text, without a partial one at its end. */
  function CompleteLines(text: string): seq<string>
    decreases |text|
  {
    var n := LineEnd(text);
    if n == 0 then [] else [text[..n]] + CompleteLines(text[n..])
  }

  lemma Assoc(a: string, b: string, c: string)
    ensures (a + b) + c == a + (b + c)
  {
  }

  lemma LineIsFirst(line: string, rest: string)
    requires IsLine(line)
    ensures LineEnd(line + rest) == |line|
  {
    var text := line + rest;
    var n := LineEnd(text);
    assert forall k :: 0 <= k < |line| ==> text[k] == line[k];
    assert text[|line| - 1] in text;
    assert forall k :: 0 <= k < n ==> text[k] == text[..n][k];
  }

  lemma FirstLine(line: string, rest: string)
    requires IsLine(line)
    ensures CompleteLines(line + rest) == [line] + CompleteLines(rest)
  {
    assert line != [];
    hide IsLine, LineEnd;
    LineIsFirst(line, rest);
    assert (line + rest)[..|line|] == line && (line + rest)[|line|..] == rest;
  }

  lemma {:induction false} ConcatAppend(lines: seq<string>, line: string)
    ensures Concat(lines + [line]) == Concat(lines) + line
  {
    if lines == [] {
      assert lines + [line] == [line];
    } else {
      assert (lines + [line])[1..] == lines[1..] + [line];
      ConcatAppend(lines[1..], line);
    }
  }

  /** Lines are known by their text: no other split consumes it. */
  lemma {:induction false} LinesAreComplete(lines: seq<string>, rest: string)
    requires AllLines(lines)
    ensures CompleteLines(Concat(lines) + rest) == lines + CompleteLines(rest)
  {
    hide CompleteLines, IsLine;
    if lines == [] {
      assert Concat(lines) + rest == rest;
    } else {
      var tail := Concat(lines[1..]) + rest;
      assert Concat(lines) + rest == lines[0] + tail;
      FirstLine(lines[0], tail);
      LinesAreComplete(lines[1..], rest);
    }
  }

  lemma NoneIsAll()
    ensures AllLines([])
  {
  }

  lemma AllWithFirst(line: string, lines: seq<string>)
    requires IsLine(line) && AllLines(lines)
    ensures AllLines([line] + lines)
  {
    hide IsLine;
  }

  /** Nothing is lost or invented: the complete lines and the partial rest are the text. */
  lemma {:induction false} CompleteLinesSplit(text: string) returns (rest: string)
    ensures Concat(CompleteLines(text)) + rest == text && '\n' !in rest
    ensures AllLines(CompleteLines(text))
    decreases |text|
  {
    hide IsLine, AllLines, LineEnd;
    var n := LineEnd(text);
    if n == 0 {
      rest := text;
      NoneIsAll();
    } else {
      rest := CompleteLinesSplit(text[n..]);
      AllWithFirst(text[..n], CompleteLines(text[n..]));
      assert text == text[..n] + text[n..];
    }
  }

  /** What is appended later never changes the lines already complete. */
  lemma AppendKeepsLines(text: string, more: string)
    ensures CompleteLines(text) <= CompleteLines(text + more)
  {
    var rest := CompleteLinesSplit(text);
    var lines := CompleteLines(text);
    hide *;
    Assoc(Concat(lines), rest, more);
    LinesAreComplete(lines, rest + more);
  }

  lemma {:induction false} ConcatEndsLine(lines: seq<string>)
    requires AllLines(lines)
    ensures var text := Concat(lines); text == [] || text[|text| - 1] == '\n'
  {
    if |lines| > 1 {
      ConcatEndsLine(lines[1..]);
    }
  }

  lemma RestIsEmptyIff(lines: seq<string>, rest: string, text: string)
    requires AllLines(lines) && Concat(lines) + rest == text && '\n' !in rest
    ensures rest == [] <==> text == [] || text[|text| - 1] == '\n'
  {
    if rest != [] {
      assert text[|text| - 1] == rest[|rest| - 1];
    } else {
      ConcatEndsLine(lines);
    }
  }

  lemma PartialJoinsLine(rest: string, line: string)
    requires '\n' !in rest && IsLine(line)
    ensures IsLine(rest + line)
  {
    var joined := rest + line;
    forall k | 0 <= k < |joined| - 1 ensures joined[k] != '\n' {
      if k < |rest| {
        assert rest[k] in rest;
      } else {
        assert line[k - |rest|] != '\n';
      }
    }
  }

  lemma PartialJoins(rest: string, text: string)
    requires '\n' !in rest && '\n' in text && rest != []
    ensures CompleteLines(rest + text) != CompleteLines(text)
  {
    var n := LineEnd(text);
    var first, tail := text[..n], text[n..];
    hide *;
    assert text == first + tail;
    PartialJoinsLine(rest, first);
    Assoc(rest, first, tail);
    FirstLine(first, tail);
    FirstLine(rest + first, tail);
    assert CompleteLines(text)[0] == first && CompleteLines(rest + text)[0] == rest + first;
    assert |rest + first| > |first|;
  }

  lemma SamePrefix(a: seq<string>, b: seq<string>, c: seq<string>)
    ensures a + b == a + c ==> b == c
  {
    if a + b == a + c {
      assert b == (a + b)[|a|..];
      assert c == (a + c)[|a|..];
    }
  }

  /** A start point cuts no line in two exactly when it stands at the beginning of one. */
  lemma StartCutsNoLineIff(content: string, start: nat)
    requires start <= |content| && '\n' in content[start..]
    ensures CompleteLines(content) == CompleteLines(content[..start]) + CompleteLines(content[start..])
            <==> start == 0 || content[start - 1] == '\n'
  {
    hide *;
    var before, after := content[..start], content[start..];
    var rest := CompleteLinesSplit(before);
    var lines := CompleteLines(before);
    RestIsEmptyIff(lines, rest, before);
    assert content == before + after;
    Assoc(Concat(lines), rest, after);
    LinesAreComplete(lines, rest + after);
    if rest == [] {
      assert rest + after == after;
    } else {
      PartialJoins(rest, after);
      assert content[start - 1] == before[|before| - 1];
      SamePrefix(lines, CompleteLines(rest + after), CompleteLines(after));
    }
  }

  // ----------------------------------------------------------------- the world

  class Log {
    var content: string

    /** Other processes append; nothing else happens to the log. */
    method Elapse()
      modifies this
      ensures old(content) <= content
    {
      var appended: string := *;
      content := content + appended;
    }
  }

  /** endswith("\n") */
  predicate EndsLine(raw: string) {
    raw != [] && raw[|raw| - 1] == '\n'
  }

  /** The text at a position is this one line. */
  ghost predicate LineAt(content: string, position: nat, raw: string) {
    IsLine(raw) && position + |raw| <= |content| && raw == content[position..position + |raw|]
  }

  /** What readline() gives at a position: a line, the rest of the text, or nothing. */
  method ReadLine(content: string, position: nat) returns (raw: string)
    requires position <= |content|
    ensures EndsLine(raw) ==> LineAt(content, position, raw)
    ensures !EndsLine(raw) ==> raw == content[position..] && '\n' !in raw
    ensures raw == [] ==> !EndsLine(raw) && position == |content|
  {
    var n := LineEnd(content[position..]);
    if n == 0 {
      raw := content[position..];
    } else {
      raw := content[position..][..n];
    }
  }

  /** A clock that never goes back. */
  method Later(now: real) returns (later: real)
    ensures later >= now
  {
    later := *;
    if later < now {
      later := now;
    }
  }

  /** Any reading of a line and any answer to its post, from now on. */
  method Arrive(line: string, now: real) returns (a: Arrival)
    ensures a.line == line && now <= a.checkedAt <= a.answeredAt
  {
    var reading: Reading := *;
    var answer: Answer := *;
    var checkedAt := Later(now);
    var answeredAt := Later(checkedAt);
    a := Arrival(line, reading, checkedAt, answer, answeredAt);
  }

  // ------------------------------------------------------------- the follower

  function Lines(run: seq<Arrival>): seq<string> {
    seq(|run|, n requires 0 <= n < |run| => run[n].line)
  }

  /** The lines of the run are the log from the start point to the current position. */
  ghost predicate Consumed(content: string, start: nat, position: nat, run: seq<Arrival>) {
    && start <= position <= |content|
    && AllLines(Lines(run))
    && Concat(Lines(run)) == content[start..position]
  }

  /** The counters and the cache are those of the run. */
  ghost predicate Counted(run: seq<Arrival>, total: int, success: int, failed: int, posts: seq<Entry>) {
    && total == |run| - Count(run, Ignored, DEDUP_TTL, DEDUP_MAX_ENTRIES)
    && success == Count(run, Posted, DEDUP_TTL, DEDUP_MAX_ENTRIES)
    && failed == Count(run, Failed, DEDUP_TTL, DEDUP_MAX_ENTRIES)
    && posts == Posts(run, DEDUP_TTL, DEDUP_MAX_ENTRIES)
  }

  lemma ConsumedGrows(content: string, longer: string, start: nat, position: nat, run: seq<Arrival>)
    requires Consumed(content, start, position, run) && content <= longer
    ensures Consumed(longer, start, position, run)
  {
    assert content[start..position] == longer[start..position];
  }

  lemma ConsumesLine(content: string, start: nat, position: nat, run: seq<Arrival>, a: Arrival)
    requires Consumed(content, start, position, run) && IsLine(a.line)
    requires position + |a.line| <= |content| && a.line == content[position..position + |a.line|]
    ensures Consumed(content, start, position + |a.line|, run + [a])
  {
    hide IsLine;
    assert Lines(run + [a]) == Lines(run) + [a.line];
    ConcatAppend(Lines(run), a.line);
    assert content[start..position] + content[position..position + |a.line|] == content[start..position + |a.line|];
  }

  lemma NoLines()
    ensures CompleteLines("") == []
  {
  }

  lemma ConsumedIsComplete(content: string, start: nat, position: nat, run: seq<Arrival>)
    requires Consumed(content, start, position, run)
    ensures start <= position <= |content|
    ensures Concat(Lines(run)) == content[start..position]
    ensures Lines(run) == CompleteLines(content[start..position])
  {
    hide AllLines, CompleteLines;
    LinesAreComplete(Lines(run), "");
    assert Concat(Lines(run)) + "" == Concat(Lines(run));
    NoLines();
  }

  lemma CountsArrival(run: seq<Arrival>, a: Arrival, total: int, success: int, failed: int, posts: seq<Entry>)
    requires Counted(run, total, success, failed, posts)
    ensures var v := Judge(posts, a, DEDUP_TTL, DEDUP_MAX_ENTRIES);
      Counted(run + [a], if v.Ignored? then total else total + 1, if v.Posted? then success + 1 else success,
              if v.Failed? then failed + 1 else failed, Recorded(posts, a, DEDUP_TTL, DEDUP_MAX_ENTRIES))
  {
    hide Judge;
    StepOfRun(run + [a], |run|, DEDUP_TTL, DEDUP_MAX_ENTRIES);
    assert (run + [a])[..|run|] == run && (run + [a])[..|run| + 1] == run + [a];
  }

  datatype Counters = Counters(total: nat, success: nat, failed: nat)

  ghost predicate UpTo(run: seq<Arrival>, now: real) {
    forall n :: 0 <= n < |run| ==> run[n].answeredAt <= now
  }

  /** What every poll keeps, over the start point, the current position and the lines read between them. */
  ghost predicate Following(first: string, content: string, start: nat, position: nat, run: seq<Arrival>, started: real,
                            now: real, c: Counters, posts: seq<Entry>)
  {
    && first <= content && Consumed(content, start, position, run)
    && Timed(run, started) && UpTo(run, now) && started <= now
    && Counted(run, c.total, c.success, c.failed, posts)
  }

  lemma FollowingGrows(first: string, content: string, longer: string, start: nat, position: nat, run: seq<Arrival>,
                       started: real, now: real, later: real, c: Counters, posts: seq<Entry>)
    requires Following(first, content, start, position, run, started, now, c, posts)
    requires content <= longer && now <= later
    ensures Following(first, longer, start, position, run, started, later, c, posts)
    ensures |first| <= |longer| && start <= position <= |longer|
  {
    ConsumedGrows(content, longer, start, position, run);
    hide Counted, Timed;
  }

  ghost function CountersAfter(c: Counters, v: Verdict): Counters {
    match v
    case Ignored => c
    case Posted => c.(total := c.total + 1, success := c.success + 1)
    case Failed => c.(total := c.total + 1, failed := c.failed + 1)
    case _ => c.(total := c.total + 1)
  }

  lemma TimedAppend(run: seq<Arrival>, started: real, now: real, a: Arrival)
    requires Timed(run, started) && UpTo(run, now) && started <= now <= a.checkedAt <= a.answeredAt
    ensures Timed(run + [a], started) && UpTo(run + [a], a.answeredAt)
  {
  }

  lemma FollowingLine(first: string, content: string, start: nat, position: nat, run: seq<Arrival>, started: real,
                      now: real, c: Counters, posts: seq<Entry>, a: Arrival)
    requires Following(first, content, start, position, run, started, now, c, posts)
    requires LineAt(content, position, a.line) && now <= a.checkedAt <= a.answeredAt
    ensures start <= position + |a.line| <= |content|
    ensures var v := Judge(posts, a, DEDUP_TTL, DEDUP_MAX_ENTRIES);
      Following(first, content, start, position + |a.line|, run + [a], started, a.answeredAt, CountersAfter(c, v),
                Recorded(posts, a, DEDUP_TTL, DEDUP_MAX_ENTRIES))
  {
    hide Counted, Judge, IsLine, AllLines, Concat, Lines, Timed, UpTo;
    ConsumesLine(content, start, position, run, a);
    CountsArrival(run, a, c.total, c.success, c.failed, posts);
    TimedAppend(run, started, now, a);
  }

  lemma NothingConsumed(content: string, start: nat)
    requires start <= |content|
    ensures Consumed(content, start, start, [])
  {
  }

  lemma FollowingFrom(first: string, content: string, start: nat, started: real, now: real, c: Counters)
    requires first <= content && start <= |content| && started <= now && c == Counters(0, 0, 0)
    ensures Following(first, content, start, start, [], started, now, c, [])
  {
    NothingConsumed(content, start);
    hide Consumed;
  }

  lemma NothingPosted(first: string, content: string, start: nat, position: nat, started: real, now: real,
                      c: Counters, posts: seq<Entry>)
    requires Following(first, content, start, position, [], started, now, c, posts)
    ensures c == Counters(0, 0, 0) && posts == [] && started <= now && first <= content
  {
    hide Consumed;
  }

  ghost predicate Ready(seen: TransactionDedupCache, now: real)
    reads seen
  {
    seen.Valid() && seen.clock <= now && seen.ttl == DEDUP_TTL && seen.maxEntries == DEDUP_MAX_ENTRIES
  }

  lemma ReadyLater(seen: TransactionDedupCache, now: real, later: real)
    requires Ready(seen, now) && now <= later
    ensures Ready(seen, later)
  {
  }

  /** One complete line, processed unless it is blank. */
  method TakeLine(a: Arrival, c: Counters, seen: TransactionDedupCache) returns (d: Counters)
    requires Ready(seen, a.checkedAt) && a.checkedAt <= a.answeredAt
    modifies seen
    ensures Ready(seen, a.answeredAt)
    ensures d == CountersAfter(c, Judge(old(seen.history), a, DEDUP_TTL, DEDUP_MAX_ENTRIES))
    ensures seen.history == Recorded(old(seen.history), a, DEDUP_TTL, DEDUP_MAX_ENTRIES)
  {
    hide Judge, Member, Blank;
    BlankIsIgnored(seen.history, a, seen.ttl, seen.maxEntries);
    if Blank(a.line) {
      return c;
    }
    d := c.(total := c.total + 1);
    var ok, posted := ProcessEventLine(a, seen);
    if posted {
      d := d.(success := d.success + 1);
    } else if !ok {
      d := d.(failed := d.failed + 1);
    }
  }

  method NewCache(ghost started: real) returns (seen: TransactionDedupCache)
    ensures fresh(seen) && Ready(seen, started) && seen.history == []
  {
    seen := new TransactionDedupCache(DEDUP_MAX_ENTRIES, DEDUP_TTL, started);
  }

  lemma FollowingLength(first: string, content: string, start: nat, position: nat, run: seq<Arrival>, started: real,
                        now: real, c: Counters, posts: seq<Entry>)
    requires Following(first, content, start, position, run, started, now, c, posts)
    ensures |first| <= |content|
  {
    hide Consumed, Counted;
  }

  /** The complete line that was read at the current position. */
  method ConsumeLine(raw: string, seen: TransactionDedupCache, now: real, c: Counters, ghost first: string,
                     ghost content: string, ghost start: nat, ghost at: nat, ghost run: seq<Arrival>,
                     ghost started: real)
    returns (a: Arrival, d: Counters)
    requires Ready(seen, now) && LineAt(content, at, raw)
    requires Following(first, content, start, at, run, started, now, c, seen.history)
    modifies seen
    ensures Ready(seen, a.answeredAt) && start <= at + |raw| <= |content|
    ensures Following(first, content, start, at + |raw|, run + [a], started, a.answeredAt, d, seen.history)
  {
    hide *;
    a := Arrive(raw, now);
    FollowingLine(first, content, start, at, run, started, now, c, seen.history, a);
    ReadyLater(seen, now, a.checkedAt);
    d := TakeLine(a, c, seen);
  }

  /** A read that found no complete line: from where, and how far the log went then. */
  datatype Poll = Poll(position: nat, end: nat)

  /** The rounds that consumed nothing: the log missing, opened, unreadable, or polled. */
  datatype Rests = Rests(missing: nat, opens: nat, failures: nat, polls: seq<Poll>)

  function Rounds(rests: Rests): nat { rests.missing + rests.opens + rests.failures + |rests.polls| }

  /** At each poll, no complete line was left to read. */
  ghost predicate Quiet(content: string, start: nat, polls: seq<Poll>) {
    forall p :: p in polls ==> start <= p.position <= p.end <= |content| && '\n' !in content[p.position..p.end]
  }

  lemma QuietGrows(content: string, longer: string, start: nat, polls: seq<Poll>)
    requires Quiet(content, start, polls) && content <= longer
    ensures Quiet(longer, start, polls)
  {
    forall p | p in polls
      ensures start <= p.position <= p.end <= |longer| && '\n' !in longer[p.position..p.end]
    {
      assert longer[p.position..p.end] == content[p.position..p.end];
    }
  }

  lemma QuietPoll(content: string, start: nat, polls: seq<Poll>, position: nat)
    requires Quiet(content, start, polls) && start <= position <= |content| && '\n' !in content[position..]
    ensures Quiet(content, start, polls + [Poll(position, |content|)])
  {
    assert content[position..|content|] == content[position..];
  }

  lemma RoundsAre(rests: Rests)
    ensures Rounds(rests) == rests.missing + rests.opens + rests.failures + |rests.polls|
  {
  }

  lemma NothingPolled(content: string, start: nat)
    ensures Quiet(content, start, [])
  {
  }

  /** One readline, and the poll that it was if it found no complete line. */
  method PollLine(content: string, position: nat, ghost start: nat, ghost rests0: Rests)
    returns (raw: string, ghost rests: Rests)
    requires start <= position <= |content| && Quiet(content, start, rests0.polls)
    ensures Quiet(content, start, rests.polls) && rests == rests0.(polls := rests.polls)
    ensures |rests.polls| == |rests0.polls| + if EndsLine(raw) then 0 else 1
    ensures EndsLine(raw) ==> LineAt(content, position, raw)
    ensures raw == [] ==> !EndsLine(raw) && position == |content|
  {
    hide *;
    raw := ReadLine(content, position);
    rests := rests0;
    if !EndsLine(raw) {
      QuietPoll(content, start, rests.polls, position);
      rests := rests.(polls := rests.polls + [Poll(position, |content|)]);
    }
  }

  /** The loop of follow_bridge over one open handle, until the stop signal or a failed read. */
  method FollowHandle(log: Log, seen: TransactionDedupCache, idleTimeout: Option<real>, rounds: nat, ghost start: nat,
                      ghost started: real, position0: nat, ghost run0: seq<Arrival>, now0: real, lastActivity0: real,
                      c0: Counters, ghost first: string, ghost rests0: Rests)
    returns (left: nat, position: nat, ghost run: seq<Arrival>, now: real, lastActivity: real, c: Counters,
             ghost idle: bool, ghost rests: Rests)
    requires Ready(seen, now0) && start <= position0 <= |log.content|
    requires Following(first, log.content, start, position0, run0, started, now0, c0, seen.history)
    requires Quiet(log.content, start, rests0.polls)
    modifies log, seen
    ensures Ready(seen, now) && |first| <= |log.content| && start <= position <= |log.content|
    ensures Following(first, log.content, start, position, run, started, now, c, seen.history)
    ensures left <= rounds && (idle ==> left == 0 && position == |log.content|)
    ensures idle ==> idleTimeout.Some? && now - lastActivity >= idleTimeout.value
    ensures Quiet(log.content, start, rests.polls)
    ensures rests.missing == rests0.missing && rests.opens == rests0.opens
    ensures rests.failures == rests0.failures || rests.failures == rests0.failures + 1
    ensures left > 0 ==> rests.failures == rests0.failures + 1
    ensures !idle ==> Rounds(rests) + |run| + left == Rounds(rests0) + |run0| + rounds
  {
    FollowingLength(first, log.content, start, position0, run0, started, now0, c0, seen.history);
    hide *;
    left, position, run, now, lastActivity, c, idle := rounds, position0, run0, now0, lastActivity0, c0, false;
    rests := rests0;
    RoundsAre(rests);
    var handle := position;
    while left > 0
      invariant handle == position && !idle && left <= rounds
      invariant Quiet(log.content, start, rests.polls) && rests == rests0.(polls := rests.polls)
      invariant |rests.polls| + |run| + left == |rests0.polls| + |run0| + rounds
      invariant |first| <= |log.content| && start <= position <= |log.content|
      invariant Ready(seen, now)
      invariant Following(first, log.content, start, position, run, started, now, c, seen.history)
      decreases left
    {
      left := left - 1;
      ghost var before := log.content;
      log.Elapse();
      var polled := Later(now);
      FollowingGrows(first, before, log.content, start, position, run, started, now, polled, c, seen.history);
      QuietGrows(before, log.content, start, rests.polls);
      ReadyLater(seen, now, polled);
      now := polled;
      var at := position;
      var tellFails: bool := *;
      if tellFails {
        position, rests := at, rests.(failures := rests.failures + 1);
        break;
      }
      at := handle;
      var readFails: bool := *;
      if readFails {
        position, rests := at, rests.(failures := rests.failures + 1);
        break;
      }
      var raw;
      raw, rests := PollLine(log.content, handle, start, rests);
      handle := handle + |raw|;
      if raw == [] {
        if idleTimeout.Some? && now - lastActivity >= idleTimeout.value {
          left, idle := 0, true;
          break;
        }
        continue;
      }
      if !EndsLine(raw) {
        handle, position := at, at;
        continue;
      }
      position, lastActivity := handle, now;
      var a;
      a, c := ConsumeLine(raw, seen, now, c, first, log.content, start, at, run, started);
      run, now := run + [a], a.answeredAt;
    }
    RoundsAre(rests);
  }

  lemma FollowingEnds(first: string, content: string, start: nat, position: nat, run: seq<Arrival>, started: real,
                      now: real, c: Counters, posts: seq<Entry>)
    requires Following(first, content, start, position, run, started, now, c, posts)
    ensures first <= content && Consumed(content, start, position, run) && Timed(run, started)
    ensures Counted(run, c.total, c.success, c.failed, posts)
    ensures Counted(run, c.total, c.success, c.failed, Posts(run, DEDUP_TTL, DEDUP_MAX_ENTRIES))
  {
    hide Consumed, Timed;
  }

  /** follow_bridge, polled a number of rounds before the stop signal, under any appends, failures and reopens. */
  method FollowBridge(log: Log, startAtEnd: bool, idleTimeout: Option<real>, started: real, rounds: nat)
    returns (c: Counters, position: nat, ghost start: nat, ghost run: seq<Arrival>, ghost idle: bool,
             ghost rests: Rests)
    modifies log
    ensures old(log.content) <= log.content && start <= position <= |log.content|
    ensures if startAtEnd then run != [] ==> start >= |old(log.content)| else start == 0
    ensures Concat(Lines(run)) == log.content[start..position]
    ensures Lines(run) == CompleteLines(log.content[start..position])
    ensures idle ==> position == |log.content| && idleTimeout.Some?
    ensures !idle ==> rounds == |run| + Rounds(rests)
    ensures rests.opens <= rests.failures + 1 && Quiet(log.content, start, rests.polls)
    ensures Timed(run, started)
    ensures Counted(run, c.total, c.success, c.failed, Posts(run, DEDUP_TTL, DEDUP_MAX_ENTRIES))
  {
    hide *;
    c, position, start, run, idle, rests := Counters(0, 0, 0), 0, 0, [], false, Rests(0, 0, 0, []);
    RoundsAre(rests);
    NothingPolled(log.content, start);
    var seen := NewCache(started);
    var now, lastActivity := started, started;
    var firstOpen, left := true, rounds;
    FollowingFrom(old(log.content), log.content, start, started, now, c);
    while left > 0
      invariant |old(log.content)| <= |log.content| && start <= position <= |log.content|
      invariant if startAtEnd then firstOpen || start >= |old(log.content)| else start == 0
      invariant firstOpen ==> run == [] && rests.polls == []
      invariant idle ==> left == 0 && position == |log.content| && idleTimeout.Some?
      invariant !idle ==> rounds == |run| + Rounds(rests) + left
      invariant rests.opens <= rests.failures + (if left > 0 then 0 else 1)
      invariant Quiet(log.content, start, rests.polls)
      invariant fresh(seen) && Ready(seen, now)
      invariant Following(old(log.content), log.content, start, position, run, started, now, c, seen.history)
      decreases left
    {
      left := left - 1;
      ghost var before := log.content;
      log.Elapse();
      FollowingGrows(old(log.content), before, log.content, start, position, run, started, now, now, c, seen.history);
      QuietGrows(before, log.content, start, rests.polls);
      RoundsAre(rests);
      var missing: bool := *;
      if missing {
        rests := rests.(missing := rests.missing + 1);
        RoundsAre(rests);
        continue;
      }
      if firstOpen && startAtEnd {
        NothingPosted(old(log.content), log.content, start, position, started, now, c, seen.history);
        position, start := |log.content|, |log.content|;
        NothingPolled(log.content, start);
        FollowingFrom(old(log.content), log.content, start, started, now, c);
      }
      firstOpen, rests := false, rests.(opens := rests.opens + 1);
      RoundsAre(rests);
      left, position, run, now, lastActivity, c, idle, rests :=
        FollowHandle(log, seen, idleTimeout, left, start, started, position, run, now, lastActivity, c,
                     old(log.content), rests);
    }
    FollowingEnds(old(log.content), log.content, start, position, run, started, now, c, seen.history);
    ConsumedIsComplete(log.content, start, position, run);
  }
}
