/** Reading a rendered candidate back undoes the printer. */
module ReadBackLaws {
  import opened Wrappers
  import opened Text
  import opened Items
  import opened Snapshots
  import opened Render
  import opened ReadBack

  // ---------------------------------------------------------------- scanning

  /** No occurrence of the marker can start within a, because no place in reach holds both characters at k. */
  ghost predicate Passes(a: string, b: string, marker: string, k: nat) {
    && k + 1 < |marker|
    && forall j :: k <= j < |a| + k && j + 1 < |a + b| ==> !((a + b)[j] == marker[k] && (a + b)[j + 1] == marker[k + 1])
  }

  lemma StartsAt(x: string, marker: string, k: nat)
    requires k < |marker|
    ensures StartsWith(x, marker) ==> x[k] == marker[k]
  {
    if StartsWith(x, marker) {
      assert x[..|marker|][k] == x[k];
    }
  }

  lemma PassesStep(a: string, b: string, marker: string, k: nat)
    requires Passes(a, b, marker, k) && a != ""
    ensures !StartsWith(a + b, marker)
    ensures Passes(a[1..], b, marker, k)
    ensures (a + b)[1..] == a[1..] + b
  {
    var x := a + b;
    StartsAt(x, marker, k);
    StartsAt(x, marker, k + 1);
    assert x[1..] == a[1..] + b;
    forall j | k <= j < |a[1..]| + k && j + 1 < |a[1..] + b|
      ensures !((a[1..] + b)[j] == marker[k] && (a[1..] + b)[j + 1] == marker[k + 1])
    {
      assert x[j + 1] == (a[1..] + b)[j] && x[j + 2] == (a[1..] + b)[j + 1];
    }
  }

  lemma {:induction false} SearchPasses(a: string, b: string, p: Pattern, k: nat)
    requires Passes(a, b, p.marker, k)
    ensures Search(a + b, p) == Search(b, p)
  {
    if a == "" {
      assert a + b == b;
    } else {
      PassesStep(a, b, p.marker, k);
      SearchPasses(a[1..], b, p, k);
    }
  }

  lemma {:induction false} FindAllPasses(a: string, b: string, p: Pattern, k: nat)
    requires Passes(a, b, p.marker, k)
    ensures FindAll(a + b, p) == FindAll(b, p)
  {
    if a == "" {
      assert a + b == b;
    } else {
      PassesStep(a, b, p.marker, k);
      FindAllPasses(a[1..], b, p, k);
    }
  }

  lemma {:induction false} SplitPasses(a: string, b: string, marker: string, k: nat)
    requires Passes(a, b, marker, k)
    ensures SplitBefore(a + b, marker) == [a + SplitBefore(b, marker)[0]] + SplitBefore(b, marker)[1..]
  {
    if a == "" {
      assert a + b == b;
      assert a + SplitBefore(b, marker)[0] == SplitBefore(b, marker)[0];
    } else {
      PassesStep(a, b, marker, k);
      SplitPasses(a[1..], b, marker, k);
      assert [a[0]] + (a[1..] + SplitBefore(b, marker)[0]) == a + SplitBefore(b, marker)[0];
    }
  }

  /** The simple reason to pass: the character at k is nowhere in reach. */
  lemma LacksPasses(a: string, b: string, marker: string, k: nat)
    requires k + 1 < |marker| && k <= |marker| && marker[k] !in a
    requires forall j :: 0 <= j < k && j < |b| ==> b[j] != marker[k]
    ensures Passes(a, b, marker, k)
  {
  }

  lemma {:induction false} RunExact(run: string, rest: string, inClass: char -> bool)
    requires forall i :: 0 <= i < |run| ==> inClass(run[i])
    requires rest == "" || !inClass(rest[0])
    ensures Run(run + rest, inClass) == run
  {
    if run == "" {
      assert run + rest == rest;
    } else {
      assert (run + rest)[1..] == run[1..] + rest;
      RunExact(run[1..], rest, inClass);
      assert [run[0]] + run[1..] == run;
    }
  }

  /** A marker, a run of the class and what ends it: the run is captured. */
  lemma CaptureExact(p: Pattern, run: string, rest: string)
    requires run != "" && forall i :: 0 <= i < |run| ==> p.inClass(run[i])
    requires StartsWith(rest, p.after) && (rest == "" || !p.inClass(rest[0]))
    ensures MatchHere(p.marker + (run + rest), p) == Some(run)
  {
    var s := p.marker + (run + rest);
    assert s[..|p.marker|] == p.marker && s[|p.marker|..] == run + rest;
    assert s[|p.marker| + |run|..] == rest;
    RunExact(run, rest, p.inClass);
  }

  lemma EndsWith(marker: string, run: string, after: string, tail: string)
    ensures (marker + (run + (after + tail)))[|marker| + |run| + |after|..] == tail
    ensures StartsWith(after + tail, after)
  {
  }

  lemma FoundFirst(s: string, p: Pattern)
    requires s != "" && MatchHere(s, p).Some?
    ensures var run := MatchHere(s, p).value;
      FindAll(s, p) == [run] + FindAll(s[|p.marker| + |run| + |p.after|..], p) && Search(s, p) == Some(run)
  {
    hide MatchHere;
  }

  lemma CaptureFirst(p: Pattern, run: string, tail: string)
    requires run != "" && forall i :: 0 <= i < |run| ==> p.inClass(run[i])
    requires p.after + tail != "" && !p.inClass((p.after + tail)[0])
    ensures FindAll(p.marker + (run + (p.after + tail)), p) == [run] + FindAll(tail, p)
    ensures Search(p.marker + (run + (p.after + tail)), p) == Some(run)
  {
    hide *;
    EndsWith(p.marker, run, p.after, tail);
    CaptureExact(p, run, p.after + tail);
    FoundFirst(p.marker + (run + (p.after + tail)), p);
  }

  // ------------------------------------------------------------ rule texts

  function Unlines(lines: seq<string>): string {
    if lines == [] then "" else lines[0] + ("\n" + Unlines(lines[1..]))
  }

  lemma {:induction false} JoinIsUnlines(lines: seq<string>)
    requires lines != []
    ensures Join(lines, '\n') + "\n" == Unlines(lines)
  {
    if |lines| == 1 {
      assert lines[1..] == [];
    } else {
      JoinIsUnlines(lines[1..]);
    }
  }

  function Front(variable: string): string { "SecRule " + variable + " " + "\"" }

  function Back(actions: string): string { "\" \"" + actions + "\"" }

  lemma SecRuleParts(variable: string, test: string, actions: string, rest: string)
    ensures SecRule(variable, test, actions) + rest == Front(variable) + (test + (Back(actions) + rest))
  {
  }

  function PathActions(revision: int, id: int, item: Item): string { Join(Actions(revision, id, item), ',') }

  const PATH_TEST := "@streq " + PATH

  function ClockThen(epoch: TimestampReader, item: Item, rest: string): string {
    INDENT + Front("TIME_EPOCH") + ("@lt " + (IntText(Cutoff(epoch, item)) + (Back("t:none") + ("\n" + rest))))
  }

  function SourceThen(item: Item, rest: string): string {
    INDENT + Front("REMOTE_ADDR") + ("@ipMatch " + (item.sourceIp + (Back("chain,t:none") + ("\n" + rest))))
  }

  function PathThen(revision: int, id: int, item: Item, rest: string): string {
    Front("REQUEST_FILENAME") + (PATH_TEST + (Back(PathActions(revision, id, item)) + ("\n" + rest)))
  }

  /** One rule of the file in front of the rest of it. */
  function RuleThen(epoch: TimestampReader, revision: int, id: int, item: Item, rest: string): string {
    PathThen(revision, id, item, SourceThen(item, ClockThen(epoch, item, rest)))
  }

  lemma Associates(a: string, b: string, c: string)
    ensures (a + b) + c == a + (b + c)
  {
  }

  lemma ClockUnlines(epoch: TimestampReader, item: Item, rest: string)
    ensures ClockLine(epoch, item) + ("\n" + rest) == ClockThen(epoch, item, rest)
  {
    hide SecRule, Front, Back, IntText;
    var x := IntText(Cutoff(epoch, item));
    SecRuleParts("TIME_EPOCH", "@lt " + x, "t:none", "\n" + rest);
    Associates(INDENT, SecRule("TIME_EPOCH", "@lt " + x, "t:none"), "\n" + rest);
    Associates("@lt ", x, Back("t:none") + ("\n" + rest));
  }

  lemma SourceUnlines(epoch: TimestampReader, item: Item, rest: string)
    ensures SourceLine(item) + ("\n" + ClockThen(epoch, item, rest)) == SourceThen(item, ClockThen(epoch, item, rest))
  {
    hide SecRule, Front, Back, IntText, ClockThen;
    var more := "\n" + ClockThen(epoch, item, rest);
    SecRuleParts("REMOTE_ADDR", "@ipMatch " + item.sourceIp, "chain,t:none", more);
    Associates(INDENT, SecRule("REMOTE_ADDR", "@ipMatch " + item.sourceIp, "chain,t:none"), more);
    Associates("@ipMatch ", item.sourceIp, Back("chain,t:none") + more);
  }

  lemma RuleUnlines(epoch: TimestampReader, revision: int, id: int, item: Item, rest: seq<string>)
    ensures Unlines(Rule(epoch, revision, id, item) + rest) == RuleThen(epoch, revision, id, item, Unlines(rest))
  {
    hide SecRule, Front, Back, IntText, Actions, Join;
    var a, b, c := PathLine(revision, id, item), SourceLine(item), ClockLine(epoch, item);
    assert ([a, b, c] + rest)[1..] == [b, c] + rest;
    assert ([b, c] + rest)[1..] == [c] + rest;
    assert ([c] + rest)[1..] == rest;
    assert Unlines([c] + rest) == c + ("\n" + Unlines(rest));
    assert Unlines([b, c] + rest) == b + ("\n" + Unlines([c] + rest));
    ClockUnlines(epoch, item, Unlines(rest));
    SourceUnlines(epoch, item, Unlines(rest));
    SecRuleParts("REQUEST_FILENAME", PATH_TEST, Join(Actions(revision, id, item), ','),
                 "\n" + SourceThen(item, ClockThen(epoch, item, Unlines(rest))));
  }

  // ------------------------------------------------- the source expression

  lemma PartsLackAt(revision: int, id: int, item: Item)
    requires CanonicalIp(item.sourceIp)
    ensures '@' !in Front("REQUEST_FILENAME") && '@' !in Front("REMOTE_ADDR") && '@' !in Front("TIME_EPOCH")
    ensures '@' !in Back(PathActions(revision, id, item)) && '@' !in Back("chain,t:none") && '@' !in Back("t:none")
  {
    hide Actions, Join, CanonicalIp;
    ActionsLack(revision, id, item, '@');
    JoinLacks(Actions(revision, id, item), ',', '@');
  }

  lemma SkipLacking(a: string, b: string, p: Pattern)
    requires |p.marker| > 1 && p.marker[0] !in a
    ensures FindAll(a + b, p) == FindAll(b, p)
    ensures Search(a + b, p) == Search(b, p)
  {
    LacksPasses(a, b, p.marker, 0);
    FindAllPasses(a, b, p, 0);
    SearchPasses(a, b, p, 0);
  }

  lemma SkipOne(s: string, p: Pattern)
    requires |s| > 1 && |p.marker| > 1 && s[1] != p.marker[1]
    ensures FindAll(s, p) == FindAll(s[1..], p)
    ensures Search(s, p) == Search(s[1..], p)
  {
    StartsAt(s, p.marker, 1);
  }

  /** A test that begins like a source test but is none, and holds no other '@'. */
  lemma OtherTest(test: string, b: string)
    requires |test| > 1 && test[0] == '@' && test[1] != 'i' && '@' !in test[1..]
    ensures FindAll(test + b, SourcePattern()) == FindAll(b, SourcePattern())
    ensures Search(test + b, SourcePattern()) == Search(b, SourcePattern())
  {
    SkipOne(test + b, SourcePattern());
    assert (test + b)[1..] == test[1..] + b;
    SkipLacking(test[1..], b, SourcePattern());
  }

  lemma ClockTestIsOther(n: int)
    ensures var test := "@lt " + IntText(n); |test| > 1 && test[1] != 'i' && '@' !in test[1..]
  {
    NumberLacks(n, '@');
    hide IntText;
    assert ("@lt " + IntText(n))[1..] == "lt " + IntText(n);
  }

  lemma ClockSources(epoch: TimestampReader, item: Item, rest: string)
    ensures FindAll(ClockThen(epoch, item, rest), SourcePattern()) == FindAll(rest, SourcePattern())
    ensures Search(ClockThen(epoch, item, rest), SourcePattern()) == Search(rest, SourcePattern())
  {
    var p, x := SourcePattern(), IntText(Cutoff(epoch, item));
    var front, back := INDENT + Front("TIME_EPOCH"), Back("t:none");
    assert '@' !in front && '@' !in back && '@' !in "\n";
    hide Front, Back, IntText, FindAll, Search, Cutoff;
    ClockTestIsOther(Cutoff(epoch, item));
    SkipLacking(front, "@lt " + (x + (back + ("\n" + rest))), p);
    Associates("@lt ", x, back + ("\n" + rest));
    OtherTest("@lt " + x, back + ("\n" + rest));
    SkipLacking(back, "\n" + rest, p);
    SkipLacking("\n", rest, p);
  }

  lemma SourceTest(ip: string, tail: string)
    requires CanonicalIp(ip) && tail != "" && tail[0] == '"'
    ensures FindAll("@ipMatch " + (ip + tail), SourcePattern()) == [ip] + FindAll(tail, SourcePattern())
    ensures Search("@ipMatch " + (ip + tail), SourcePattern()) == Some(ip)
  {
    CanonicalIpIsPrinted(ip);
    hide CanonicalIp;
    CaptureFirst(SourcePattern(), ip, tail);
    assert "" + tail == tail;
  }

  lemma SourceSources(epoch: TimestampReader, item: Item, rest: string)
    requires CanonicalIp(item.sourceIp)
    ensures FindAll(SourceThen(item, ClockThen(epoch, item, rest)), SourcePattern())
            == [item.sourceIp] + FindAll(rest, SourcePattern())
    ensures Search(SourceThen(item, ClockThen(epoch, item, rest)), SourcePattern()) == Some(item.sourceIp)
  {
    var p, ip := SourcePattern(), item.sourceIp;
    var front, back := INDENT + Front("REMOTE_ADDR"), Back("chain,t:none");
    var tail := back + ("\n" + ClockThen(epoch, item, rest));
    assert '@' !in front && '@' !in back && '@' !in "\n";
    assert tail[0] == '"';
    hide Front, Back, CanonicalIp, ClockThen, FindAll, Search;
    SkipLacking(front, "@ipMatch " + (ip + tail), p);
    SourceTest(ip, tail);
    SkipLacking(back, "\n" + ClockThen(epoch, item, rest), p);
    SkipLacking("\n", ClockThen(epoch, item, rest), p);
    ClockSources(epoch, item, rest);
  }

  lemma RuleSources(epoch: TimestampReader, revision: int, id: int, item: Item, rest: string)
    requires CanonicalIp(item.sourceIp)
    ensures FindAll(RuleThen(epoch, revision, id, item, rest), SourcePattern())
            == [item.sourceIp] + FindAll(rest, SourcePattern())
    ensures Search(RuleThen(epoch, revision, id, item, rest), SourcePattern()) == Some(item.sourceIp)
  {
    var p := SourcePattern();
    var front, back := Front("REQUEST_FILENAME"), Back(PathActions(revision, id, item));
    var tail := "\n" + SourceThen(item, ClockThen(epoch, item, rest));
    PartsLackAt(revision, id, item);
    assert '@' !in "\n" && PATH_TEST[1] != 'i' && '@' !in PATH_TEST[1..];
    hide Front, Back, PathActions, CanonicalIp, SourceThen, ClockThen, FindAll, Search;
    SkipLacking(front, PATH_TEST + (back + tail), p);
    OtherTest(PATH_TEST, back + tail);
    SkipLacking(back, tail, p);
    SkipLacking("\n", SourceThen(item, ClockThen(epoch, item, rest)), p);
    SourceSources(epoch, item, rest);
  }

  function RulesText(epoch: TimestampReader, revision: int, ordered: seq<Item>, id: int): string {
    if ordered == [] then ""
    else RuleThen(epoch, revision, id, ordered[0], RulesText(epoch, revision, ordered[1..], id + 1))
  }

  lemma {:induction false} RulesUnlines(epoch: TimestampReader, revision: int, ordered: seq<Item>, id: int)
    ensures Unlines(Rules(epoch, revision, ordered, id)) == RulesText(epoch, revision, ordered, id)
  {
    hide RuleThen, Rule;
    if ordered != [] {
      RulesUnlines(epoch, revision, ordered[1..], id + 1);
      RuleUnlines(epoch, revision, id, ordered[0], Rules(epoch, revision, ordered[1..], id + 1));
    }
  }

  lemma ContentText(epoch: TimestampReader, revision: int, items: seq<Item>)
    ensures Content(epoch, revision, items)
            == HEADER + ("\n" + RulesText(epoch, revision, Ordered(epoch, items), RULE_ID_START))
  {
    hide Join, RulesText, Ordered, Rules;
    var rules := Rules(epoch, revision, Ordered(epoch, items), RULE_ID_START);
    JoinIsUnlines([HEADER] + rules);
    assert ([HEADER] + rules)[1..] == rules;
    RulesUnlines(epoch, revision, Ordered(epoch, items), RULE_ID_START);
  }

  function Sources(ordered: seq<Item>): seq<string> {
    seq(|ordered|, i requires 0 <= i < |ordered| => ordered[i].sourceIp)
  }

  ghost predicate Addressed(items: seq<Item>) {
    forall x :: x in items ==> CanonicalIp(x.sourceIp)
  }

  lemma {:induction false} RulesTextSources(epoch: TimestampReader, revision: int, ordered: seq<Item>, id: int)
    requires Addressed(ordered)
    ensures FindAll(RulesText(epoch, revision, ordered, id), SourcePattern()) == Sources(ordered)
  {
    hide RuleThen, CanonicalIp;
    if ordered != [] {
      hide FindAll;
      RulesTextSources(epoch, revision, ordered[1..], id + 1);
      RuleSources(epoch, revision, id, ordered[0], RulesText(epoch, revision, ordered[1..], id + 1));
      assert Sources(ordered) == [ordered[0].sourceIp] + Sources(ordered[1..]);
    }
  }

  /** _candidate_sources reads the addresses back in rule order; it raises exactly for no items. */
  lemma SourcesReadBack(epoch: TimestampReader, revision: int, items: seq<Item>)
    requires Addressed(items)
    ensures CandidateSources(Content(epoch, revision, items))
            == if items == [] then None else Some(Sources(Ordered(epoch, items)))
  {
    var ordered := Ordered(epoch, items);
    assert '@' !in HEADER && '@' !in "\n";
    hide Content, FindAll, RulesText, Ordered, CanonicalIp;
    forall x | x in ordered ensures CanonicalIp(x.sourceIp) {
      SameItems(epoch, items, x);
    }
    ContentText(epoch, revision, items);
    var text := RulesText(epoch, revision, ordered, RULE_ID_START);
    SkipLacking(HEADER, "\n" + text, SourcePattern());
    SkipLacking("\n", text, SourcePattern());
    RulesTextSources(epoch, revision, ordered, RULE_ID_START);
  }

  // -------------------------------------------------- printing in front of

  lemma PathThenAppends(revision: int, id: int, item: Item, rest: string)
    ensures PathThen(revision, id, item, rest) == PathThen(revision, id, item, "") + rest
  {
    hide Front, Back, PathActions;
  }

  lemma SourceThenAppends(item: Item, rest: string)
    ensures SourceThen(item, rest) == SourceThen(item, "") + rest
  {
    hide Front, Back;
  }

  lemma ClockThenAppends(epoch: TimestampReader, item: Item, rest: string)
    ensures ClockThen(epoch, item, rest) == ClockThen(epoch, item, "") + rest
  {
    hide Front, Back, IntText;
  }

  lemma FixedLacks(c: char)
    requires c == 'Q' || c == 'C'
    ensures c !in PATH_TEST && c !in INDENT && c !in Front("REMOTE_ADDR")
    ensures c !in "@ipMatch " && c !in Back("chain,t:none")
    ensures c == 'C' ==> c !in Front("REQUEST_FILENAME")
  {
  }

  lemma PieceLacks(revision: int, id: int, item: Item, c: char)
    requires CanonicalIp(item.sourceIp) && (c == 'Q' || c == 'C')
    ensures c !in PATH_TEST && c !in Back(PathActions(revision, id, item))
    ensures c !in SourceThen(item, "") && c !in INDENT
    ensures c == 'C' ==> c !in Front("REQUEST_FILENAME")
  {
    hide Actions, Join, CanonicalIp, Front;
    ActionsLack(revision, id, item, c);
    JoinLacks(Actions(revision, id, item), ',', c);
    assert c !in Back(PathActions(revision, id, item));
    hide Back, PathActions;
    CanonicalIpIsPrinted(item.sourceIp);
    FixedLacks(c);
    assert c !in item.sourceIp;
    assert c !in "\n" + "";
  }

  lemma ClockThenLacks(epoch: TimestampReader, item: Item)
    ensures 'Q' !in ClockThen(epoch, item, "")
  {
    NumberLacks(Cutoff(epoch, item), 'Q');
    hide IntText;
  }

  // ------------------------------------------------------ cutting into rules

  const MARK_HEAD := "SecRule REQ"
  const MARK_TAIL := "UEST_FILENAME \""

  lemma FrontHasMark()
    ensures Front("REQUEST_FILENAME") == MARK_HEAD + MARK_TAIL
    ensures 'Q' !in MARK_TAIL
  {
  }

  lemma MarkShape(rest: string)
    ensures StartsWith(MARK_HEAD + (MARK_TAIL + rest), RULE_MARKER)
    ensures forall j :: 0 <= j < 10 ==> MARK_HEAD[j] != 'Q'
  {
    assert MARK_HEAD + MARK_TAIL[..13] == RULE_MARKER;
    var s := MARK_HEAD + (MARK_TAIL + rest);
    assert s[..24] == MARK_HEAD + MARK_TAIL[..13];
  }

  /** What follows the mark of a rule, up to the end of the rule, holds no further mark. */
  function AfterMark(epoch: TimestampReader, revision: int, id: int, item: Item): string {
    MARK_TAIL
    + (PATH_TEST
       + (Back(PathActions(revision, id, item)) + ("\n" + (SourceThen(item, "") + ClockThen(epoch, item, "")))))
  }

  lemma AppendsMark(back: string, source: string, clock: string, rest: string)
    ensures MARK_HEAD + MARK_TAIL + (PATH_TEST + (back + ("\n" + (source + (clock + rest)))))
            == MARK_HEAD + ((MARK_TAIL + (PATH_TEST + (back + ("\n" + (source + clock))))) + rest)
    ensures MARK_HEAD + MARK_TAIL + (PATH_TEST + (back + ("\n" + (source + clock))))
            == MARK_HEAD + (MARK_TAIL + (PATH_TEST + (back + ("\n" + (source + clock)))))
  {
  }

  lemma RuleIsMarked(epoch: TimestampReader, revision: int, id: int, item: Item, rest: string)
    requires CanonicalIp(item.sourceIp)
    ensures RuleThen(epoch, revision, id, item, rest) == MARK_HEAD + (AfterMark(epoch, revision, id, item) + rest)
    ensures 'Q' !in AfterMark(epoch, revision, id, item)
    ensures RuleThen(epoch, revision, id, item, "") == MARK_HEAD + AfterMark(epoch, revision, id, item)
  {
    FrontHasMark();
    PieceLacks(revision, id, item, 'Q');
    ClockThenLacks(epoch, item);
    hide Front, Back, PathActions, CanonicalIp;
    ClockThenAppends(epoch, item, rest);
    SourceThenAppends(item, ClockThen(epoch, item, rest));
    SourceThenAppends(item, ClockThen(epoch, item, ""));
    hide ClockThen, SourceThen;
    AppendsMark(Back(PathActions(revision, id, item)), SourceThen(item, ""), ClockThen(epoch, item, ""), rest);
  }

  lemma FarPasses(a: string, b: string, marker: string, k: nat)
    requires k + 1 < |marker|
    requires forall j :: k <= j < |a| + k && j + 1 < |a + b| ==> (a + b)[j] != marker[k]
    ensures Passes(a, b, marker, k)
  {
  }

  lemma BodyPasses(start: string, body: string, rest: string, marker: string)
    requires |start| == 10 && |marker| == 24 && marker[10] == 'Q' && 'Q' !in body
    requires forall j :: 0 <= j < 10 && j < |rest| ==> rest[j] != 'Q'
    ensures Passes(start + body, rest, marker, 10)
  {
    var a := start + body;
    forall j | 10 <= j < |a| + 10 && j + 1 < |a + rest| ensures (a + rest)[j] != 'Q' {
      if j < |a| {
        assert a[j] == body[j - 10];
      }
    }
    FarPasses(a, rest, marker, 10);
  }

  lemma CutParts(c: char, a: string, first: string, others: seq<string>)
    ensures var more := [a + first] + others;
      [""] + ([[c] + more[0]] + more[1..]) == ["", ([c] + a) + first] + others
  {
    assert [c] + (a + first) == ([c] + a) + first;
  }

  lemma SplitFirst(c: char, text: string, marker: string)
    requires StartsWith([c] + text, marker)
    ensures var more := SplitBefore(text, marker);
      SplitBefore([c] + text, marker) == [""] + ([[c] + more[0]] + more[1..])
  {
    assert ([c] + text)[1..] == text;
  }

  /** A text that starts with the marker is cut in front. */
  lemma SplitHere(c: char, a: string, rest: string, marker: string)
    requires StartsWith([c] + (a + rest), marker)
    requires var cut := SplitBefore(rest, marker); SplitBefore(a + rest, marker) == [a + cut[0]] + cut[1..]
    ensures var cut := SplitBefore(rest, marker);
      SplitBefore([c] + (a + rest), marker) == ["", ([c] + a) + cut[0]] + cut[1..]
  {
    hide *;
    SplitFirst(c, a + rest, marker);
    var cut := SplitBefore(rest, marker);
    CutParts(c, a, cut[0], cut[1..]);
  }

  /** A rule is cut off as one piece in front of the next rule. */
  lemma CutRule(c: char, start: string, body: string, rest: string, marker: string)
    requires |start| == 10 && |marker| == 24 && marker[10] == 'Q' && 'Q' !in body
    requires StartsWith([c] + ((start + body) + rest), marker)
    requires forall j :: 0 <= j < 10 && j < |rest| ==> rest[j] != 'Q'
    ensures var cut := SplitBefore(rest, marker);
      SplitBefore([c] + ((start + body) + rest), marker) == ["", ([c] + (start + body)) + cut[0]] + cut[1..]
  {
    hide *;
    BodyPasses(start, body, rest, marker);
    SplitPasses(start + body, rest, marker, 10);
    SplitHere(c, start + body, rest, marker);
  }

  lemma HeadOf(head: string, body: string, rest: string)
    requires head != ""
    ensures head + (body + rest) == [head[0]] + ((head[1..] + body) + rest)
    ensures head + body == [head[0]] + (head[1..] + body)
  {
  }

  function Chunks(epoch: TimestampReader, revision: int, ordered: seq<Item>, id: int): seq<string> {
    if ordered == [] then []
    else [RuleThen(epoch, revision, id, ordered[0], "")] + Chunks(epoch, revision, ordered[1..], id + 1)
  }

  lemma RulesTextHead(epoch: TimestampReader, revision: int, ordered: seq<Item>, id: int)
    requires Addressed(ordered)
    ensures var text := RulesText(epoch, revision, ordered, id);
      forall j :: 0 <= j < 10 && j < |text| ==> text[j] != 'Q'
  {
    if ordered != [] {
      hide RuleThen, CanonicalIp, AfterMark;
      var rest := RulesText(epoch, revision, ordered[1..], id + 1);
      RuleIsMarked(epoch, revision, id, ordered[0], rest);
      MarkShape("");
    }
  }

  lemma AddressedTail(items: seq<Item>)
    requires items != [] && Addressed(items)
    ensures CanonicalIp(items[0].sourceIp) && Addressed(items[1..])
  {
    hide CanonicalIp;
  }

  lemma NoRules(epoch: TimestampReader, revision: int, id: int)
    ensures SplitBefore(RulesText(epoch, revision, [], id), RULE_MARKER) == [""] + Chunks(epoch, revision, [], id)
  {
  }

  lemma FirstRule(epoch: TimestampReader, revision: int, ordered: seq<Item>, id: int)
    requires ordered != []
    ensures RulesText(epoch, revision, ordered, id)
            == RuleThen(epoch, revision, id, ordered[0], RulesText(epoch, revision, ordered[1..], id + 1))
    ensures Chunks(epoch, revision, ordered, id)
            == [RuleThen(epoch, revision, id, ordered[0], "")] + Chunks(epoch, revision, ordered[1..], id + 1)
  {
    hide RuleThen;
  }

  lemma CutJoins(cut: seq<string>, chunk: string, chunks: seq<string>)
    requires cut == [""] + chunks
    ensures ["", chunk + cut[0]] + cut[1..] == [""] + ([chunk] + chunks)
  {
    assert chunk + "" == chunk;
    assert cut[1..] == chunks;
  }

  lemma CutNext(body: string, rest: string, chunks: seq<string>)
    requires 'Q' !in body && StartsWith(MARK_HEAD + (body + rest), RULE_MARKER)
    requires forall j :: 0 <= j < 10 && j < |rest| ==> rest[j] != 'Q'
    requires SplitBefore(rest, RULE_MARKER) == [""] + chunks
    ensures SplitBefore(MARK_HEAD + (body + rest), RULE_MARKER) == [""] + ([MARK_HEAD + body] + chunks)
  {
    assert RULE_MARKER[10] == 'Q' && |RULE_MARKER| == 24 && |MARK_HEAD| == 11;
    hide *;
    HeadOf(MARK_HEAD, body, rest);
    CutRule(MARK_HEAD[0], MARK_HEAD[1..], body, rest, RULE_MARKER);
    CutJoins(SplitBefore(rest, RULE_MARKER), MARK_HEAD + body, chunks);
  }

  lemma MarkedStarts(epoch: TimestampReader, revision: int, id: int, item: Item, rest: string)
    ensures StartsWith(MARK_HEAD + (AfterMark(epoch, revision, id, item) + rest), RULE_MARKER)
  {
    hide Back, PathActions, SourceThen, ClockThen;
    var more := PATH_TEST
      + (Back(PathActions(revision, id, item)) + ("\n" + (SourceThen(item, "") + ClockThen(epoch, item, ""))));
    Associates(MARK_TAIL, more, rest);
    MarkShape(more + rest);
  }

  lemma RuleCut(epoch: TimestampReader, revision: int, id: int, item: Item, rest: string, chunks: seq<string>)
    requires CanonicalIp(item.sourceIp) && SplitBefore(rest, RULE_MARKER) == [""] + chunks
    requires forall j :: 0 <= j < 10 && j < |rest| ==> rest[j] != 'Q'
    ensures SplitBefore(RuleThen(epoch, revision, id, item, rest), RULE_MARKER)
            == [""] + ([RuleThen(epoch, revision, id, item, "")] + chunks)
  {
    hide *;
    RuleIsMarked(epoch, revision, id, item, rest);
    MarkedStarts(epoch, revision, id, item, rest);
    CutNext(AfterMark(epoch, revision, id, item), rest, chunks);
  }

  lemma {:induction false} RulesCut(epoch: TimestampReader, revision: int, ordered: seq<Item>, id: int)
    requires Addressed(ordered)
    ensures SplitBefore(RulesText(epoch, revision, ordered, id), RULE_MARKER)
            == [""] + Chunks(epoch, revision, ordered, id)
  {
    hide *;
    if ordered == [] {
      NoRules(epoch, revision, id);
    } else {
      AddressedTail(ordered);
      RulesCut(epoch, revision, ordered[1..], id + 1);
      FirstRule(epoch, revision, ordered, id);
      RulesTextHead(epoch, revision, ordered[1..], id + 1);
      RuleCut(epoch, revision, id, ordered[0], RulesText(epoch, revision, ordered[1..], id + 1),
              Chunks(epoch, revision, ordered[1..], id + 1));
    }
  }

  lemma HeaderPasses()
    ensures 'Q' !in HEADER + "\n"
  {
  }

  lemma CutFront(a: string, b: string)
    requires 'Q' !in a && forall j :: 0 <= j < 10 && j < |b| ==> b[j] != 'Q'
    ensures SplitBefore(a + b, RULE_MARKER) == [a + SplitBefore(b, RULE_MARKER)[0]] + SplitBefore(b, RULE_MARKER)[1..]
  {
    assert RULE_MARKER[10] == 'Q' && |RULE_MARKER| == 24;
    LacksPasses(a, b, RULE_MARKER, 10);
    SplitPasses(a, b, RULE_MARKER, 10);
  }

  /** re.split cuts the file into its comment line and one piece per rule. */
  lemma ContentCut(epoch: TimestampReader, revision: int, items: seq<Item>)
    requires Addressed(items)
    ensures SplitBefore(Content(epoch, revision, items), RULE_MARKER)
            == [HEADER + "\n"] + Chunks(epoch, revision, Ordered(epoch, items), RULE_ID_START)
  {
    var ordered := Ordered(epoch, items);
    HeaderPasses();
    hide Content, SplitBefore, RulesText, Chunks, Ordered, CanonicalIp;
    forall x | x in ordered ensures CanonicalIp(x.sourceIp) {
      SameItems(epoch, items, x);
    }
    var text := RulesText(epoch, revision, ordered, RULE_ID_START);
    ContentText(epoch, revision, items);
    Associates(HEADER, "\n", text);
    RulesTextHead(epoch, revision, ordered, RULE_ID_START);
    RulesCut(epoch, revision, ordered, RULE_ID_START);
    CutFront(HEADER + "\n", text);
    assert (HEADER + "\n") + "" == HEADER + "\n";
  }

  // ------------------------------------------------------------- one chunk

  lemma ClockMarkerText()
    ensures Front("TIME_EPOCH") + "@lt " == "SecRule TIME_EPOCH \"@lt "
  {
  }

  lemma ClockMarkerLetters()
    ensures var m := "SecRule TIME_EPOCH \"@lt "; |m| == 24 && m[0] == 'S' && m[16] == 'C'
    ensures 'S' !in "SecRule TIME_EPOCH \"@lt "[1..]
    ensures var m := "SecRule TIME_EPOCH \"@lt "; forall j :: 0 <= j < 16 ==> m[j] != 'C'
  {
    assert "SecRule TIME_EPOCH \"@lt "[1..] == "ecRule TIME_EPOCH \"@lt ";
  }

  lemma ClockMarker()
    ensures Front("TIME_EPOCH") + "@lt " == ExpiryPattern().marker
    ensures ExpiryPattern().marker[0] == 'S' && 'S' !in ExpiryPattern().marker[1..]
    ensures ExpiryPattern().marker[16] == 'C' && |ExpiryPattern().marker| == 24
    ensures forall j :: 0 <= j < 16 ==> ExpiryPattern().marker[j] != 'C'
  {
    hide Front;
    ClockMarkerText();
    ClockMarkerLetters();
  }

  const CLOCK_END := " \"t:none\"\n"

  lemma ClockEnd()
    ensures Back("t:none") + ("\n" + "") == "\"" + CLOCK_END
    ensures 'S' !in CLOCK_END && 'S' !in "\""
  {
  }

  /** A marker that no capture follows, and that no later character can begin, finds nothing. */
  lemma NoCapture(p: Pattern, rest: string)
    requires |p.marker| > 1 && p.marker[0] !in p.marker[1..] && p.marker[0] !in rest
    requires rest == "" || !p.inClass(rest[0])
    ensures Search(p.marker + rest, p).None?
  {
    var s := p.marker + rest;
    assert s[|p.marker|..] == rest;
    assert MatchHere(s, p).None? by {
      if rest != "" {
        assert Run(rest, p.inClass) == "" by { RunExact("", rest, p.inClass); assert "" + rest == rest; }
      }
    }
    assert s[1..] == (p.marker[1..] + rest) + "";
    LacksPasses(p.marker[1..] + rest, "", p.marker, 0);
    SearchPasses(p.marker[1..] + rest, "", p, 0);
  }

  lemma ClockTestFound(p: Pattern, n: int, x: string)
    requires p == ExpiryPattern() && x == IntText(n) && 'S' !in x && 'S' !in CLOCK_END
    requires p.marker[0] == 'S' && 'S' !in p.marker[1..] && |p.marker| > 17
    ensures Search(p.marker + (x + ("\"" + CLOCK_END)), p) == if n >= 0 then Some(x) else None
  {
    hide Search, IntText;
    var rest := x + ("\"" + CLOCK_END);
    if n >= 0 {
      assert (p.after + CLOCK_END)[0] == '"';
      CaptureFirst(p, x, CLOCK_END);
    } else {
      assert rest[0] == '-';
      assert 'S' !in rest;
      NoCapture(p, rest);
    }
  }

  /** The expiry is found when it is printed without a sign, and only then. */
  lemma ClockTest(n: int)
    ensures Search(Front("TIME_EPOCH") + ("@lt " + (IntText(n) + (Back("t:none") + ("\n" + "")))), ExpiryPattern())
            == if n >= 0 then Some(IntText(n)) else None
  {
    var p, x := ExpiryPattern(), IntText(n);
    ClockMarker();
    ClockEnd();
    NumberLacks(n, 'S');
    hide Front, Back, IntText, ExpiryPattern, Search;
    Associates(Front("TIME_EPOCH"), "@lt ", x + ("\"" + CLOCK_END));
    ClockTestFound(p, n, x);
  }

  lemma ClockHead(clock: string, rest: string, marker: string)
    requires clock == Front("TIME_EPOCH") + ("@lt " + rest) && marker == Front("TIME_EPOCH") + "@lt "
    requires |marker| == 24 && forall j :: 0 <= j < 16 ==> marker[j] != 'C'
    ensures forall j :: 0 <= j < 16 && j < |clock| ==> clock[j] != 'C'
  {
    hide Front;
    assert clock == marker + rest;
  }

  /** In one rule: everything before the clock test passes, so its expiry is what is found. */
  lemma RuleExpiry(epoch: TimestampReader, revision: int, id: int, item: Item)
    requires CanonicalIp(item.sourceIp)
    ensures Search(RuleThen(epoch, revision, id, item, ""), ExpiryPattern())
            == if Cutoff(epoch, item) >= 0 then Some(IntText(Cutoff(epoch, item))) else None
  {
    var p, x := ExpiryPattern(), IntText(Cutoff(epoch, item));
    PieceLacks(revision, id, item, 'C');
    ClockMarker();
    hide Front, Back, PathActions, IntText, ExpiryPattern, Search, CanonicalIp, Cutoff;
    var clock := Front("TIME_EPOCH") + ("@lt " + (x + (Back("t:none") + ("\n" + ""))));
    Associates(INDENT, Front("TIME_EPOCH"), "@lt " + (x + (Back("t:none") + ("\n" + ""))));
    var before := PathThen(revision, id, item, "") + (SourceThen(item, "") + INDENT);
    SourceThenAppends(item, INDENT + clock);
    PathThenAppends(revision, id, item, SourceThen(item, INDENT + clock));
    assert RuleThen(epoch, revision, id, item, "") == before + clock by {
      hide PathThen, SourceThen;
      Associates(SourceThen(item, ""), INDENT, clock);
      Associates(PathThen(revision, id, item, ""), SourceThen(item, "") + INDENT, clock);
    }
    assert 'C' !in PathThen(revision, id, item, "") by { assert 'C' !in "\n" + ""; }
    hide PathThen, SourceThen;
    ClockHead(clock, x + (Back("t:none") + ("\n" + "")), p.marker);
    LacksPasses(before, clock, p.marker, 16);
    SearchPasses(before, clock, p, 16);
    ClockTest(Cutoff(epoch, item));
  }

  // ---------------------------------------------------- the recommendation

  /** The characters at 9 and 10 of the recommendation marker, which stand together nowhere before it. */
  ghost predicate NoDouble(s: string) { forall j :: 0 <= j && j + 1 < |s| ==> !(s[j] == 'm' && s[j + 1] == 'm') }

  lemma NoDoubleConcat(a: string, b: string)
    requires NoDouble(a) && NoDouble(b)
    requires a == "" || b == "" || a[|a| - 1] != 'm' || b[0] != 'm'
    ensures NoDouble(a + b)
  {
    forall j | 0 <= j && j + 1 < |a + b| ensures !((a + b)[j] == 'm' && (a + b)[j + 1] == 'm') {
      if j + 1 < |a| {
        assert (a + b)[j] == a[j] && (a + b)[j + 1] == a[j + 1];
      } else if j >= |a| {
        assert (a + b)[j] == b[j - |a|] && (a + b)[j + 1] == b[j + 1 - |a|];
      }
    }
  }

  lemma {:induction false} NoDoubleJoin(parts: seq<string>)
    requires forall i :: 0 <= i < |parts| ==> NoDouble(parts[i])
    ensures NoDouble(Join(parts, ','))
  {
    if |parts| > 1 {
      NoDoubleJoin(parts[1..]);
      var rest := Join(parts[1..], ',');
      NoDoubleConcat([','], rest);
      NoDoubleConcat(parts[0], [','] + rest);
      assert parts[0] + [','] + rest == parts[0] + ([','] + rest);
    }
  }

  lemma {:induction false} JoinLast(parts: seq<string>, last: string, sep: char)
    requires parts != []
    ensures Join(parts + [last], sep) == Join(parts, sep) + ([sep] + last)
  {
    assert (parts + [last])[1..] == parts[1..] + [last];
    if |parts| > 1 {
      JoinLast(parts[1..], last, sep);
    }
  }

  function OtherActions(revision: int, id: int): seq<string> {
    [ "chain", "id:" + IntText(id), "phase:1", "deny", "log", "status:403", "t:none", "msg:'PR7 WAF block'",
      "tag:'pr7'", "tag:'revision-" + IntText(revision) + "'" ]
  }

  lemma MessageNoDouble()
    ensures NoDouble("msg:'PR7 WAF block'")
  {
  }

  lemma LackingNoDouble(s: string)
    requires 'm' !in s
    ensures NoDouble(s)
  {
  }

  lemma OtherActionsNoDouble(revision: int, id: int)
    ensures NoDouble(Join(OtherActions(revision, id), ','))
  {
    hide IntText, Join, NoDouble;
    var parts := OtherActions(revision, id);
    MessageNoDouble();
    TagLacks("id:", id, 'm');
    TagLacks("tag:'revision-", revision, 'm');
    forall i | 0 <= i < |parts| ensures NoDouble(parts[i]) {
      if i != 7 {
        assert 'm' !in parts[i];
        LackingNoDouble(parts[i]);
      }
    }
    NoDoubleJoin(parts);
  }

  lemma RecommendationMarker()
    ensures var m := RecommendationPattern().marker;
      |m| == 20 && m[9] == 'm' && m[10] == 'm' && forall j :: 0 <= j < 9 ==> m[j] != 'm'
  {
  }

  lemma PathFrontNoDouble()
    ensures 'm' !in Front("REQUEST_FILENAME") && 'm' !in PATH_TEST && 'm' !in "\" \""
  {
  }

  /** All of the first line in front of its recommendation tag. */
  function BeforeTag(revision: int, id: int): string {
    Front("REQUEST_FILENAME") + (PATH_TEST + ("\" \"" + (Join(OtherActions(revision, id), ',') + [','])))
  }

  lemma BeforeTagParts(revision: int, id: int)
    ensures BeforeTag(revision, id)
            == Front("REQUEST_FILENAME") + (PATH_TEST + "\" \"") + (Join(OtherActions(revision, id), ',') + [','])
  {
    hide Front, Join, OtherActions;
  }

  lemma BeforeTagNoDouble(revision: int, id: int)
    ensures var a := BeforeTag(revision, id); NoDouble(a) && a[|a| - 1] == ','
  {
    PathFrontNoDouble();
    OtherActionsNoDouble(revision, id);
    BeforeTagParts(revision, id);
    hide *;
    var acts := Join(OtherActions(revision, id), ',');
    LackingNoDouble([',']);
    LackingNoDouble(Front("REQUEST_FILENAME") + (PATH_TEST + "\" \""));
    NoDoubleConcat(acts, [',']);
    NoDoubleConcat(Front("REQUEST_FILENAME") + (PATH_TEST + "\" \""), acts + [',']);
  }

  lemma TagRegroup(front: string, acts: string, n: string, rest: string)
    ensures front
            + (PATH_TEST + (("\" \"" + (acts + ([','] + ("tag:'recommendation-" + n + "'"))) + "\"") + ("\n" + rest)))
            == (front + (PATH_TEST + ("\" \"" + (acts + [',']))))
               + ("tag:'recommendation-" + (n + ("'" + ("\"" + ("\n" + rest)))))
  {
  }

  lemma TagSplit(revision: int, id: int, item: Item, rest: string)
    ensures PathThen(revision, id, item, rest)
            == BeforeTag(revision, id)
               + ("tag:'recommendation-" + (IntText(item.recommendationId) + ("'" + ("\"" + ("\n" + rest)))))
  {
    hide Front, Join, IntText;
    var last := "tag:'recommendation-" + IntText(item.recommendationId) + "'";
    assert Actions(revision, id, item) == OtherActions(revision, id) + [last];
    JoinLast(OtherActions(revision, id), last, ',');
    hide Actions, OtherActions;
    var acts := Join(OtherActions(revision, id), ',');
    TagRegroup(Front("REQUEST_FILENAME"), acts, IntText(item.recommendationId), rest);
  }

  lemma TagPasses(a: string, rest: string, marker: string)
    requires |marker| == 20 && marker[9] == 'm' && marker[10] == 'm' && forall j :: 0 <= j < 9 ==> marker[j] != 'm'
    requires NoDouble(a) && a != "" && a[|a| - 1] == ','
    ensures Passes(a, marker + rest, marker, 9)
  {
    var x := a + (marker + rest);
    forall j | 9 <= j < |a| + 9 && j + 1 < |x| ensures !(x[j] == 'm' && x[j + 1] == 'm') {
      if j + 1 < |a| {
        assert x[j] == a[j] && x[j + 1] == a[j + 1];
      } else if j >= |a| {
        assert x[j] == marker[j - |a|];
      }
    }
  }

  /** In one rule: the recommendation of the item is what is found. */
  lemma RuleRecommendation(epoch: TimestampReader, revision: int, id: int, item: Item)
    requires item.recommendationId >= 0
    ensures Search(RuleThen(epoch, revision, id, item, ""), RecommendationPattern())
            == Some(IntText(item.recommendationId))
  {
    var p, n := RecommendationPattern(), IntText(item.recommendationId);
    assert p.marker == "tag:'recommendation-" && p.after == "'" && !p.inClass('\'');
    RecommendationMarker();
    hide IntText, RecommendationPattern, Search, SourceThen, ClockThen, Front, Join, OtherActions;
    var rest := "\"" + ("\n" + SourceThen(item, ClockThen(epoch, item, "")));
    TagSplit(revision, id, item, SourceThen(item, ClockThen(epoch, item, "")));
    BeforeTagNoDouble(revision, id);
    hide BeforeTag, PathThen;
    TagPasses(BeforeTag(revision, id), n + ("'" + rest), p.marker);
    SearchPasses(BeforeTag(revision, id), p.marker + (n + ("'" + rest)), p, 9);
    CaptureFirst(p, n, rest);
  }

  // ------------------------------------------------------- the probe rule

  /** What the file says of an item at a clock second: a negative cutoff prints a sign and reads as no expiry at all. */
  predicate SeemsInForce(epoch: TimestampReader, item: Item, now: int) {
    Cutoff(epoch, item) < 0 || now < Cutoff(epoch, item)
  }

  function Shown(epoch: TimestampReader, item: Item): Active {
    Active(item.sourceIp, Some(item.recommendationId), if Cutoff(epoch, item) >= 0 then Cutoff(epoch, item) else 0)
  }

  ghost predicate Readable(items: seq<Item>) {
    forall x :: x in items ==> CanonicalIp(x.sourceIp) && x.recommendationId >= 0
  }

  lemma ChunkReads(epoch: TimestampReader, revision: int, id: int, item: Item, now: int)
    requires CanonicalIp(item.sourceIp) && item.recommendationId >= 0
    ensures ChunkRule(RuleThen(epoch, revision, id, item, ""), now)
            == if SeemsInForce(epoch, item, now) then Some(Shown(epoch, item)) else None
  {
    hide RuleThen, Search, CanonicalIp;
    RuleSources(epoch, revision, id, item, "");
    RuleExpiry(epoch, revision, id, item);
    RuleRecommendation(epoch, revision, id, item);
    NatRoundTrip(item.recommendationId);
    if Cutoff(epoch, item) >= 0 {
      NatRoundTrip(Cutoff(epoch, item));
    }
  }

  function ShownRules(epoch: TimestampReader, ordered: seq<Item>, now: int): (r: seq<Active>)
    ensures forall a :: a in r <==> exists x :: x in ordered && SeemsInForce(epoch, x, now) && a == Shown(epoch, x)
  {
    if ordered == [] then []
    else
      var rest := ShownRules(epoch, ordered[1..], now);
      assert forall x :: x in ordered <==> x == ordered[0] || x in ordered[1..];
      if SeemsInForce(epoch, ordered[0], now) then [Shown(epoch, ordered[0])] + rest else rest
  }

  lemma {:induction false} ActiveReads(epoch: TimestampReader, revision: int, ordered: seq<Item>, id: int, now: int)
    requires Readable(ordered)
    ensures ActiveRules(Chunks(epoch, revision, ordered, id), now) == ShownRules(epoch, ordered, now)
  {
    hide RuleThen, ChunkRule, SeemsInForce, Shown, CanonicalIp;
    if ordered != [] {
      ActiveReads(epoch, revision, ordered[1..], id + 1, now);
      ChunkReads(epoch, revision, id, ordered[0], now);
    }
  }

  lemma HeaderInactive(now: int)
    ensures ChunkRule(HEADER + "\n", now).None?
  {
    assert '@' !in HEADER + "\n";
    SkipLacking(HEADER + "\n", "", SourcePattern());
    assert (HEADER + "\n") + "" == HEADER + "\n";
  }

  /** _candidate_probe_rule sees exactly the items that seem in force, and picks one shown to last longest. */
  lemma ProbeRuleReadsBack(epoch: TimestampReader, revision: int, items: seq<Item>, now: int)
    requires Readable(items)
    ensures var r := ProbeRule(Content(epoch, revision, items), now);
      && (r.None? <==> forall x :: x in items ==> 0 <= Cutoff(epoch, x) <= now)
      && (r.Some? ==>
            && (exists x :: x in items && SeemsInForce(epoch, x, now) && r.value == Shown(epoch, x))
            && (forall y :: y in items && SeemsInForce(epoch, y, now) ==> Shown(epoch, y).expiry <= r.value.expiry))
  {
    hide Content, SplitBefore, Chunks, ChunkRule, Ordered, CanonicalIp, Cutoff, ShownRules;
    var ordered := Ordered(epoch, items);
    forall x ensures x in ordered <==> x in items {
      SameItems(epoch, items, x);
    }
    ContentCut(epoch, revision, items);
    ActiveReads(epoch, revision, ordered, RULE_ID_START, now);
    HeaderInactive(now);
    var active := ShownRules(epoch, ordered, now);
    var chunks := Chunks(epoch, revision, ordered, RULE_ID_START);
    assert ([HEADER + "\n"] + chunks)[1..] == chunks;
    assert ActiveRules(SplitBefore(Content(epoch, revision, items), RULE_MARKER), now) == active;
    forall y | y in items && SeemsInForce(epoch, y, now) ensures Shown(epoch, y) in active {
    }
    if active != [] {
      assert active[0] in active;
    }
  }

  predicate Live(epoch: TimestampReader, item: Item, now: int) { now < Cutoff(epoch, item) }

  /** With a live item the probe uses a live item with the greatest cutoff of all. */
  lemma ProbeRuleIsLive(epoch: TimestampReader, revision: int, items: seq<Item>, now: int)
    requires Readable(items) && now >= 0 && exists x :: x in items && Live(epoch, x, now)
    ensures exists x ::
      && x in items && Live(epoch, x, now) && (forall y :: y in items ==> Cutoff(epoch, y) <= Cutoff(epoch, x))
      && ProbeRule(Content(epoch, revision, items), now)
         == Some(Active(x.sourceIp, Some(x.recommendationId), Cutoff(epoch, x)))
  {
    hide Content, ProbeRule, Cutoff, CanonicalIp;
    ProbeRuleReadsBack(epoch, revision, items, now);
    var live :| live in items && Live(epoch, live, now);
    var r := ProbeRule(Content(epoch, revision, items), now).value;
    var x :| x in items && SeemsInForce(epoch, x, now) && r == Shown(epoch, x);
    assert SeemsInForce(epoch, live, now);
    assert Cutoff(epoch, x) > now;
    forall y | y in items ensures Cutoff(epoch, y) <= Cutoff(epoch, x) {
      if Cutoff(epoch, y) > now {
        assert SeemsInForce(epoch, y, now);
      }
    }
  }

  /** Without one, the probe is misled into an expired item exactly when some cutoff is negative. */
  lemma ProbeRuleMisledIff(epoch: TimestampReader, revision: int, items: seq<Item>, now: int)
    requires Readable(items) && now >= 0 && !exists x :: x in items && Live(epoch, x, now)
    ensures ProbeRule(Content(epoch, revision, items), now).Some? <==> exists x :: x in items && Cutoff(epoch, x) < 0
  {
    hide Content, ProbeRule, Cutoff, CanonicalIp;
    ProbeRuleReadsBack(epoch, revision, items, now);
    if ProbeRule(Content(epoch, revision, items), now).Some? {
      var x :| x in items && SeemsInForce(epoch, x, now)
               && ProbeRule(Content(epoch, revision, items), now).value == Shown(epoch, x);
      assert !Live(epoch, x, now);
    }
  }

  lemma ValidIsReadable(epoch: TimestampReader, s: Snapshot)
    requires Valid(epoch, s)
    ensures Readable(s.items)
  {
    assert ValidItems(epoch, s.items) by {
      hide ValidHeader, ValidItems, CanonicalStateChecksum;
    }
    hide CanonicalIp, Valid, NoClash, CanonicalStateChecksum;
    forall x | x in s.items ensures CanonicalIp(x.sourceIp) && x.recommendationId >= 0 {
      var i :| 0 <= i < |s.items| && s.items[i] == x;
      assert ValidItem(epoch, s.items[i]);
    }
  }
}
