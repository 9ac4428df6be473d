/**
 * A meaning for candidate files that does not look at how they were rendered: the text is
 * cut into lines, each line parsed as a SecRule directive, and a request is denied when all
 * directives of some chain hold and its first one denies.
 */
module RuleSemantics {
  import opened Wrappers
  import opened Text
  import opened Items
  import opened Snapshots
  import opened Render

  datatype Directive = Directive(variable: string, operator: string, argument: string, actions: seq<string>)

  datatype Request = Request(path: string, address: nat, second: int)

  function SkipBlanks(line: string): string {
    if line != "" && line[0] == ' ' then SkipBlanks(line[1..]) else line
  }

  /** SecRule VARIABLE "OPERATOR ARGUMENT" "ACTION,ACTION,..." */
  function ParseDirective(line: string): Option<Directive> {
    var quoted := Split(SkipBlanks(line), '"');
    if |quoted| != 5 || quoted[2] != " " || quoted[4] != "" then None
    else
      var head, test := Split(quoted[0], ' '), Split(quoted[1], ' ');
      if |head| != 3 || head[0] != "SecRule" || head[2] != "" || |test| != 2 then None
      else Some(Directive(head[1], test[0], test[1], Split(quoted[3], ',')))
  }

  predicate Ignored(line: string) { line == "" || line[0] == '#' }

  /** All directives of a configuration, or None when a line is neither empty, comment nor directive. */
  function ParseLines(lines: seq<string>): Option<seq<Directive>> {
    if lines == [] then Some([])
    else
      var rest := ParseLines(lines[1..]);
      if rest.None? then None
      else if Ignored(lines[0]) then rest
      else
        var first := ParseDirective(lines[0]);
        if first.None? then None else Some([first.value] + rest.value)
  }

  function Parse(text: string): Option<seq<Directive>> { ParseLines(Split(text, '\n')) }

  /** One operator applied to one request variable. */
  predicate Holds(d: Directive, r: Request) {
    if d.variable == "REQUEST_FILENAME" && d.operator == "@streq" then r.path == d.argument
    else if d.variable == "REMOTE_ADDR" && d.operator == "@ipMatch" then ParseIp(d.argument) == Some(r.address)
    else if d.variable == "TIME_EPOCH" && d.operator == "@lt"
    then IsIntText(d.argument) && r.second < IntValue(d.argument)
    else false
  }

  /** Length of the chain at the front: up to the first directive without the chain action. */
  function ChainLength(ds: seq<Directive>): (n: nat)
    ensures n <= |ds| && (ds != [] ==> n > 0)
  {
    if ds == [] then 0
    else if "chain" in ds[0].actions then 1 + ChainLength(ds[1..])
    else 1
  }

  predicate ChainFires(chain: seq<Directive>, r: Request)
    requires chain != []
  {
    "deny" in chain[0].actions && forall i :: 0 <= i < |chain| ==> Holds(chain[i], r)
  }

  predicate Denies(ds: seq<Directive>, r: Request) {
    if ds == [] then false
    else
      var n := ChainLength(ds);
      ChainFires(ds[..n], r) || Denies(ds[n..], r)
  }

  /** The configuration loads and denies the request. */
  predicate TextDenies(text: string, r: Request) {
    var ds := Parse(text);
    ds.Some? && Denies(ds.value, r)
  }

  /** The ids of the rules that carry one, in file order. */
  function IdOf(d: Directive): Option<int> {
    if |d.actions| > 1 && |d.actions[1]| > 3 && d.actions[1][..3] == "id:" && IsIntText(d.actions[1][3..])
    then Some(IntValue(d.actions[1][3..])) else None
  }

  function Ids(ds: seq<Directive>): seq<int> {
    if ds == [] then []
    else if IdOf(ds[0]).Some? then [IdOf(ds[0]).value] + Ids(ds[1..])
    else Ids(ds[1..])
  }

  // ------------------------------------------------- what the renderer prints

  function PathDirective(revision: int, id: int, item: Item): Directive {
    Directive("REQUEST_FILENAME", "@streq", PATH, Actions(revision, id, item))
  }

  function SourceDirective(item: Item): Directive {
    Directive("REMOTE_ADDR", "@ipMatch", item.sourceIp, ["chain", "t:none"])
  }

  function ClockDirective(epoch: TimestampReader, item: Item): Directive {
    Directive("TIME_EPOCH", "@lt", IntText(Cutoff(epoch, item)), ["t:none"])
  }

  function RuleDirectives(epoch: TimestampReader, revision: int, ordered: seq<Item>, id: int): seq<Directive> {
    if ordered == [] then []
    else
      [PathDirective(revision, id, ordered[0]), SourceDirective(ordered[0]), ClockDirective(epoch, ordered[0])]
      + RuleDirectives(epoch, revision, ordered[1..], id + 1)
  }

  /** A directive as text: the variable, then the test and the actions in quotes. */
  function DirectiveText(d: Directive): string {
    SecRule(d.variable, d.operator + " " + d.argument, Join(d.actions, ','))
  }

  predicate Plain(s: string) { '"' !in s && ' ' !in s }

  predicate PlainActions(actions: seq<string>) {
    actions != [] && forall i :: 0 <= i < |actions| ==> '"' !in actions[i] && ',' !in actions[i]
  }

  lemma {:induction false} BlanksSkipped(blanks: string, line: string)
    requires forall i :: 0 <= i < |blanks| ==> blanks[i] == ' '
    requires line != "" && line[0] != ' '
    ensures SkipBlanks(blanks + line) == line
  {
    if blanks != "" {
      assert (blanks + line)[1..] == blanks[1..] + line;
      BlanksSkipped(blanks[1..], line);
    } else {
      assert blanks + line == line;
    }
  }

  lemma HeadSplits(variable: string)
    requires ' ' !in variable
    ensures Split("SecRule " + variable + " ", ' ') == ["SecRule", variable, ""]
  {
    var rest := variable + [' '] + "";
    assert "SecRule " + variable + " " == "SecRule" + [' '] + rest;
    SplitFirst("SecRule", ' ', rest);
    SplitFirst(variable, ' ', "");
  }

  lemma QuotedSplits(head: string, test: string, acts: string)
    requires '"' !in head && '"' !in test && '"' !in acts
    ensures Split(head + "\"" + test + "\" \"" + acts + "\"", '"') == [head, test, " ", acts, ""]
  {
    var p3 := acts + ['"'] + "";
    var p2 := " " + ['"'] + p3;
    var p1 := test + ['"'] + p2;
    assert head + "\"" + test + "\" \"" + acts + "\"" == head + ['"'] + p1;
    calc {
      Split(head + ['"'] + p1, '"');
      { SplitFirst(head, '"', p1); }
      [head] + Split(p1, '"');
      { SplitFirst(test, '"', p2); }
      [head] + ([test] + Split(p2, '"'));
      { SplitFirst(" ", '"', p3); }
      [head] + ([test] + ([" "] + Split(p3, '"')));
      { SplitFirst(acts, '"', ""); }
      [head] + ([test] + ([" "] + ([acts] + [""])));
    }
  }

  /** Parsing undoes printing for every directive whose parts hold no separator of their own. */
  lemma DirectiveParses(blanks: string, d: Directive)
    requires forall i :: 0 <= i < |blanks| ==> blanks[i] == ' '
    requires Plain(d.variable) && Plain(d.operator) && Plain(d.argument) && PlainActions(d.actions)
    ensures ParseDirective(blanks + DirectiveText(d)) == Some(d)
  {
    hide Join, Split, SkipBlanks;
    var head, test, acts := "SecRule " + d.variable + " ", d.operator + " " + d.argument, Join(d.actions, ',');
    BlanksSkipped(blanks, DirectiveText(d));
    JoinLacks(d.actions, ',', '"');
    QuotedSplits(head, test, acts);
    HeadSplits(d.variable);
    SplitFirst(d.operator, ' ', d.argument);
    SplitWhole(d.argument, ' ');
    assert test == d.operator + [' '] + d.argument;
    SplitJoin(d.actions, ',');
  }

  // ----------------------------------------------------- the rendered lines

  ghost predicate Renderable(items: seq<Item>) {
    forall x :: x in items ==> CanonicalIp(x.sourceIp)
  }

  lemma IpLacks(ip: string, c: char)
    requires CanonicalIp(ip) && !IpChar(c)
    ensures c !in ip
  {
    CanonicalIpIsPrinted(ip);
  }

  lemma PathLineIsDirective(revision: int, id: int, item: Item)
    ensures PathLine(revision, id, item) == DirectiveText(PathDirective(revision, id, item))
  {
    hide Actions, Join, SecRule;
    assert "@streq" + " " + PATH == "@streq " + PATH;
  }

  lemma JoinTwo(a: string, b: string, sep: char)
    ensures Join([a, b], sep) == a + [sep] + b
  {
    assert [a, b][1..] == [b];
  }

  lemma SourceLineIsDirective(item: Item)
    ensures SourceLine(item) == INDENT + DirectiveText(SourceDirective(item))
  {
    JoinTwo("chain", "t:none", ',');
    hide Join, SecRule;
    assert "chain" + [','] + "t:none" == "chain,t:none";
    assert "@ipMatch" + " " + item.sourceIp == "@ipMatch " + item.sourceIp;
  }

  lemma ClockLineIsDirective(epoch: TimestampReader, item: Item)
    ensures ClockLine(epoch, item) == INDENT + DirectiveText(ClockDirective(epoch, item))
  {
    assert Join(["t:none"], ',') == "t:none";
    hide IntText, Join, SecRule;
    assert "@lt" + " " + IntText(Cutoff(epoch, item)) == "@lt " + IntText(Cutoff(epoch, item));
  }

  /** The line is a directive of its own: it stays in one piece, is not skipped, and parses. */
  ghost predicate Loads(line: string, d: Directive) {
    '\n' !in line && !Ignored(line) && ParseDirective(line) == Some(d)
  }

  lemma SecRuleLacksBreak(variable: string, test: string, actions: string)
    requires '\n' !in variable && '\n' !in test && '\n' !in actions
    ensures '\n' !in SecRule(variable, test, actions)
    ensures !Ignored(SecRule(variable, test, actions)) && !Ignored(INDENT + SecRule(variable, test, actions))
  {
  }

  predicate OneLine(d: Directive) {
    && '\n' !in d.variable && '\n' !in d.operator && '\n' !in d.argument
    && forall i :: 0 <= i < |d.actions| ==> '\n' !in d.actions[i]
  }

  lemma DirectiveLoads(d: Directive)
    requires Plain(d.variable) && Plain(d.operator) && Plain(d.argument) && PlainActions(d.actions) && OneLine(d)
    ensures Loads(DirectiveText(d), d) && Loads(INDENT + DirectiveText(d), d)
  {
    DirectiveParses("", d);
    DirectiveParses(INDENT, d);
    JoinLacks(d.actions, ',', '\n');
    hide Join, SecRule, ParseDirective, Ignored;
    SecRuleLacksBreak(d.variable, d.operator + " " + d.argument, Join(d.actions, ','));
    assert "" + DirectiveText(d) == DirectiveText(d);
  }

  lemma PathTestPlain()
    ensures Plain("REQUEST_FILENAME") && Plain("@streq") && Plain(PATH)
    ensures '\n' !in "REQUEST_FILENAME" && '\n' !in "@streq" && '\n' !in PATH
  {
  }

  lemma PathDirectivePlain(d: Directive)
    requires d.variable == "REQUEST_FILENAME" && d.operator == "@streq" && d.argument == PATH
    requires forall i :: 0 <= i < |d.actions| ==> '\n' !in d.actions[i]
    ensures Plain(d.variable) && Plain(d.operator) && Plain(d.argument) && OneLine(d)
  {
    hide Plain;
    PathTestPlain();
  }

  lemma PathLineLoads(revision: int, id: int, item: Item)
    ensures Loads(PathLine(revision, id, item), PathDirective(revision, id, item))
  {
    hide DirectiveText, PathLine, Loads, Actions, Plain, OneLine;
    ActionsLack(revision, id, item, '"');
    ActionsLack(revision, id, item, ',');
    ActionsLack(revision, id, item, '\n');
    PathLineIsDirective(revision, id, item);
    PathDirectivePlain(PathDirective(revision, id, item));
    DirectiveLoads(PathDirective(revision, id, item));
  }

  lemma SourceTestPlain()
    ensures Plain("REMOTE_ADDR") && Plain("@ipMatch") && PlainActions(["chain", "t:none"])
    ensures '\n' !in "REMOTE_ADDR" && '\n' !in "@ipMatch" && '\n' !in "chain" && '\n' !in "t:none"
  {
  }

  lemma PlainText(s: string)
    requires '"' !in s && ' ' !in s
    ensures Plain(s)
  {
  }

  lemma SourceDirectivePlain(item: Item)
    requires Plain(item.sourceIp) && '\n' !in item.sourceIp
    ensures var d := SourceDirective(item);
      Plain(d.variable) && Plain(d.operator) && Plain(d.argument) && PlainActions(d.actions) && OneLine(d)
  {
    hide Plain, PlainActions;
    SourceTestPlain();
  }

  lemma SourceLineLoads(item: Item)
    requires CanonicalIp(item.sourceIp)
    ensures Loads(SourceLine(item), SourceDirective(item))
  {
    IpLacks(item.sourceIp, '"');
    IpLacks(item.sourceIp, ' ');
    IpLacks(item.sourceIp, '\n');
    hide *;
    PlainText(item.sourceIp);
    SourceDirectivePlain(item);
    SourceLineIsDirective(item);
    DirectiveLoads(SourceDirective(item));
  }

  lemma ClockTestPlain()
    ensures Plain("TIME_EPOCH") && Plain("@lt") && PlainActions(["t:none"])
    ensures '\n' !in "TIME_EPOCH" && '\n' !in "@lt" && '\n' !in "t:none"
  {
  }

  lemma ClockDirectivePlain(epoch: TimestampReader, item: Item)
    requires var n := IntText(Cutoff(epoch, item)); Plain(n) && '\n' !in n
    ensures var d := ClockDirective(epoch, item);
      Plain(d.variable) && Plain(d.operator) && Plain(d.argument) && PlainActions(d.actions) && OneLine(d)
  {
    hide Plain, PlainActions, IntText;
    ClockTestPlain();
  }

  lemma PlainNumber(epoch: TimestampReader, item: Item)
    ensures var n := IntText(Cutoff(epoch, item)); Plain(n) && '\n' !in n
  {
    hide IntText;
    NumberLacks(Cutoff(epoch, item), '"');
    NumberLacks(Cutoff(epoch, item), ' ');
    NumberLacks(Cutoff(epoch, item), '\n');
    PlainText(IntText(Cutoff(epoch, item)));
  }

  lemma ClockLineLoads(epoch: TimestampReader, item: Item)
    ensures Loads(ClockLine(epoch, item), ClockDirective(epoch, item))
  {
    hide *;
    PlainNumber(epoch, item);
    ClockDirectivePlain(epoch, item);
    ClockLineIsDirective(epoch, item);
    DirectiveLoads(ClockDirective(epoch, item));
  }

  lemma ParseStep(line: string, d: Directive, rest: seq<string>)
    requires Loads(line, d) && ParseLines(rest).Some?
    ensures ParseLines([line] + rest) == Some([d] + ParseLines(rest).value)
  {
    hide ParseDirective, Ignored;
    assert ([line] + rest)[1..] == rest;
  }

  lemma EmptyLineIgnored()
    ensures ParseLines([""]) == Some([])
  {
    assert [""][1..] == [];
  }

  /** The three lines of one rule, in front of lines that load, load as its three directives. */
  lemma ThreeLinesParse(a: string, b: string, c: string, da: Directive, db: Directive, dc: Directive,
                        rest: seq<string>, directives: seq<Directive>)
    requires Loads(a, da) && Loads(b, db) && Loads(c, dc) && ParseLines(rest) == Some(directives)
    ensures ParseLines([a] + ([b] + ([c] + rest))) == Some([da] + ([db] + ([dc] + directives)))
  {
    hide Loads, ParseLines;
    ParseStep(c, dc, rest);
    ParseStep(b, db, [c] + rest);
    ParseStep(a, da, [b] + ([c] + rest));
  }

  lemma FirstRuleLines(epoch: TimestampReader, revision: int, ordered: seq<Item>, id: int)
    requires ordered != []
    ensures Rules(epoch, revision, ordered, id) + [""]
            == [PathLine(revision, id, ordered[0])] + ([SourceLine(ordered[0])] + ([ClockLine(epoch, ordered[0])]
               + (Rules(epoch, revision, ordered[1..], id + 1) + [""])))
  {
    hide PathLine, SourceLine, ClockLine;
  }

  lemma FirstRuleDirectives(epoch: TimestampReader, revision: int, ordered: seq<Item>, id: int)
    requires ordered != []
    ensures RuleDirectives(epoch, revision, ordered, id)
            == [PathDirective(revision, id, ordered[0])]
               + ([SourceDirective(ordered[0])] + ([ClockDirective(epoch, ordered[0])]
               + RuleDirectives(epoch, revision, ordered[1..], id + 1)))
  {
    hide PathDirective, SourceDirective, ClockDirective;
  }

  lemma RenderableTail(items: seq<Item>)
    requires items != [] && Renderable(items)
    ensures CanonicalIp(items[0].sourceIp) && Renderable(items[1..])
  {
    hide CanonicalIp;
  }

  lemma {:induction false} RulesParse(epoch: TimestampReader, revision: int, ordered: seq<Item>, id: int)
    requires Renderable(ordered)
    ensures ParseLines(Rules(epoch, revision, ordered, id) + [""]) == Some(RuleDirectives(epoch, revision, ordered, id))
  {
    if ordered == [] {
      EmptyLineIgnored();
      assert Rules(epoch, revision, ordered, id) + [""] == [""];
    } else {
      var item := ordered[0];
      RenderableTail(ordered);
      hide *;
      RulesParse(epoch, revision, ordered[1..], id + 1);
      PathLineLoads(revision, id, item);
      SourceLineLoads(item);
      ClockLineLoads(epoch, item);
      FirstRuleLines(epoch, revision, ordered, id);
      FirstRuleDirectives(epoch, revision, ordered, id);
      ThreeLinesParse(PathLine(revision, id, item), SourceLine(item), ClockLine(epoch, item),
                      PathDirective(revision, id, item), SourceDirective(item), ClockDirective(epoch, item),
                      Rules(epoch, revision, ordered[1..], id + 1) + [""],
                      RuleDirectives(epoch, revision, ordered[1..], id + 1));
    }
  }

  lemma {:induction false} RulesAreLines(epoch: TimestampReader, revision: int, ordered: seq<Item>, id: int)
    requires Renderable(ordered)
    ensures forall line :: line in Rules(epoch, revision, ordered, id) ==> '\n' !in line
  {
    if ordered != [] {
      var item := ordered[0];
      RenderableTail(ordered);
      hide CanonicalIp, Renderable, PathLine, SourceLine, ClockLine, PathDirective, SourceDirective, ClockDirective,
        ParseDirective, Ignored;
      RulesAreLines(epoch, revision, ordered[1..], id + 1);
      PathLineLoads(revision, id, item);
      SourceLineLoads(item);
      ClockLineLoads(epoch, item);
    }
  }

  lemma {:induction false} JoinEnd(parts: seq<string>, sep: char)
    requires parts != []
    ensures Join(parts + [""], sep) == Join(parts, sep) + [sep]
  {
    assert (parts + [""])[1..] == parts[1..] + [""];
    if |parts| == 1 {
      assert parts + [""] == [parts[0], ""];
      JoinTwo(parts[0], "", sep);
    } else {
      JoinEnd(parts[1..], sep);
    }
  }

  lemma HeaderLine(rest: seq<string>)
    ensures ParseLines([HEADER] + rest) == ParseLines(rest)
    ensures '\n' !in HEADER
  {
    assert ([HEADER] + rest)[1..] == rest;
  }

  /** The rendered file loads, as the directives of its items in order. */
  lemma ContentParses(epoch: TimestampReader, revision: int, items: seq<Item>)
    requires Renderable(items)
    ensures Parse(Content(epoch, revision, items))
            == Some(RuleDirectives(epoch, revision, Ordered(epoch, items), RULE_ID_START))
  {
    hide Join, Rules, Ordered, RuleDirectives, Ignored, ParseLines, CanonicalIp;
    var ordered := Ordered(epoch, items);
    forall x | x in ordered ensures CanonicalIp(x.sourceIp) {
      SameItems(epoch, items, x);
    }
    RulesParse(epoch, revision, ordered, RULE_ID_START);
    RulesAreLines(epoch, revision, ordered, RULE_ID_START);
    var rules := Rules(epoch, revision, ordered, RULE_ID_START);
    HeaderLine(rules + [""]);
    JoinEnd([HEADER] + rules, '\n');
    assert [HEADER] + rules + [""] == [HEADER] + (rules + [""]);
    SplitJoin([HEADER] + rules + [""], '\n');
  }

  // ----------------------------------------------------------- the meaning

  /** The policy's own reading of one item. */
  predicate Blocks(epoch: TimestampReader, item: Item, r: Request) {
    r.path == PATH && ParseIp(item.sourceIp) == Some(r.address) && r.second < Cutoff(epoch, item)
  }

  lemma ChainMeans(epoch: TimestampReader, revision: int, id: int, item: Item, rest: seq<Directive>, r: Request)
    ensures var ds := [PathDirective(revision, id, item), SourceDirective(item), ClockDirective(epoch, item)] + rest;
      Denies(ds, r) <==> Blocks(epoch, item, r) || Denies(rest, r)
  {
    hide ParseIp, IntText, Cutoff;
    var a, b, c := PathDirective(revision, id, item), SourceDirective(item), ClockDirective(epoch, item);
    var ds := [a, b, c] + rest;
    assert a.actions[0] == "chain" && a.actions[3] == "deny";
    assert b.actions[0] == "chain";
    assert "chain" !in c.actions;
    assert ds[1..] == [b, c] + rest && ([b, c] + rest)[1..] == [c] + rest;
    assert ChainLength([c] + rest) == 1;
    assert ChainLength([b, c] + rest) == 2;
    assert ChainLength(ds) == 3;
    assert ds[..3] == [a, b, c] && ds[3..] == rest;
    IntRoundTrip(Cutoff(epoch, item));
    assert Holds(a, r) <==> r.path == PATH;
    assert Holds(b, r) <==> ParseIp(item.sourceIp) == Some(r.address);
    assert Holds(c, r) <==> r.second < Cutoff(epoch, item);
    assert ChainFires([a, b, c], r) <==> Blocks(epoch, item, r) by {
      hide Holds;
      assert [a, b, c][0] == a && [a, b, c][1] == b && [a, b, c][2] == c;
    }
  }

  lemma NothingDenies(r: Request)
    ensures !Denies([], r)
  {
  }

  lemma {:induction false} RulesMean(epoch: TimestampReader, revision: int, ordered: seq<Item>, id: int, r: Request)
    ensures Denies(RuleDirectives(epoch, revision, ordered, id), r) <==> exists x :: x in ordered && Blocks(epoch, x, r)
  {
    hide Blocks, PathDirective, SourceDirective, ClockDirective, Denies;
    if ordered == [] {
      NothingDenies(r);
    } else {
      RulesMean(epoch, revision, ordered[1..], id + 1, r);
      ChainMeans(epoch, revision, id, ordered[0], RuleDirectives(epoch, revision, ordered[1..], id + 1), r);
      assert forall x :: x in ordered <==> x == ordered[0] || x in ordered[1..];
    }
  }

  /** The rendered file denies a request exactly when some policy item blocks it. */
  lemma RenderingPreservesMeaning(epoch: TimestampReader, revision: int, items: seq<Item>, r: Request)
    requires Renderable(items)
    ensures TextDenies(Content(epoch, revision, items), r) <==> exists x :: x in items && Blocks(epoch, x, r)
  {
    hide Blocks, Content, Parse, Ordered, RuleDirectives, CanonicalIp;
    var ordered := Ordered(epoch, items);
    ContentParses(epoch, revision, items);
    RulesMean(epoch, revision, ordered, RULE_ID_START, r);
    forall x ensures x in ordered <==> x in items {
      SameItems(epoch, items, x);
    }
  }

  lemma SameSourceIsSameItem(epoch: TimestampReader, items: seq<Item>, x: Item, y: Item)
    requires ValidItems(epoch, items) && x in items && y in items && ParseIp(x.sourceIp) == ParseIp(y.sourceIp)
    ensures x == y
  {
    hide ParseIp, IpText;
    var i :| 0 <= i < |items| && items[i] == x;
    var j :| 0 <= j < |items| && items[j] == y;
    assert ValidItem(epoch, items[i]) && ValidItem(epoch, items[j]);
    assert Clash(items[i], items[j]) && Clash(items[j], items[i]);
  }

  lemma ValidIsRenderable(epoch: TimestampReader, s: Snapshot)
    requires Valid(epoch, s)
    ensures Renderable(s.items)
  {
    hide CanonicalIp, NoClash, CanonicalStateChecksum;
    forall x | x in s.items ensures CanonicalIp(x.sourceIp) {
      var i :| 0 <= i < |s.items| && s.items[i] == x;
      assert ValidItem(epoch, s.items[i]);
    }
  }

  /**
   * On the millisecond clock, the rendered file of a validated snapshot denies the source of an
   * item up to one instant, from one to under two seconds before that item expires.
   */
  lemma BlockEndsBeforeExpiry(epoch: TimestampReader, s: Snapshot, x: Item, ms: int)
    requires Valid(epoch, s) && x in s.items
    ensures ParseIp(x.sourceIp).Some?
    ensures TextDenies(SnapshotContent(epoch, s), Request(PATH, ParseIp(x.sourceIp).value, ms / 1000))
            <==> ms < Cutoff(epoch, x) * 1000
    ensures 1000 <= ExpiryMs(epoch, x) - Cutoff(epoch, x) * 1000 < 2000
  {
    ValidIsRenderable(epoch, s);
    assert ValidItems(epoch, s.items) && ParseIp(x.sourceIp).Some?;
    var r := Request(PATH, ParseIp(x.sourceIp).value, ms / 1000);
    hide Valid, ValidItems, Renderable, TextDenies, Content, ParseIp, CanonicalIp;
    RenderingPreservesMeaning(epoch, s.revision, s.items, r);
    forall y | y in s.items && Blocks(epoch, y, r) ensures y == x {
      SameSourceIsSameItem(epoch, s.items, x, y);
    }
    assert Blocks(epoch, x, r) <==> ms < Cutoff(epoch, x) * 1000;
  }

  lemma IdPrinted(revision: int, id: int, item: Item)
    ensures IdOf(PathDirective(revision, id, item)) == Some(id)
  {
    var action := Actions(revision, id, item)[1];
    assert action == "id:" + IntText(id);
    assert action[..3] == "id:" && action[3..] == IntText(id);
    IntRoundTrip(id);
  }

  lemma IdsOfThree(a: Directive, b: Directive, c: Directive, rest: seq<Directive>)
    requires IdOf(a).Some? && IdOf(b).None? && IdOf(c).None?
    ensures Ids([a, b, c] + rest) == [IdOf(a).value] + Ids(rest)
  {
    hide IdOf;
    assert ([a, b, c] + rest)[1..] == [b, c] + rest;
    assert ([b, c] + rest)[1..] == [c] + rest;
    assert ([c] + rest)[1..] == rest;
    assert Ids([c] + rest) == Ids(rest);
    assert Ids([b, c] + rest) == Ids([c] + rest);
  }

  lemma {:induction false} RuleIdsCount(epoch: TimestampReader, revision: int, ordered: seq<Item>, id: int)
    ensures |Ids(RuleDirectives(epoch, revision, ordered, id))| == |ordered|
    ensures forall k :: 0 <= k < |ordered| ==> Ids(RuleDirectives(epoch, revision, ordered, id))[k] == id + k
  {
    if ordered != [] {
      var item := ordered[0];
      var rest := RuleDirectives(epoch, revision, ordered[1..], id + 1);
      IdPrinted(revision, id, item);
      RuleIdsCount(epoch, revision, ordered[1..], id + 1);
      assert IdOf(SourceDirective(item)).None? && IdOf(ClockDirective(epoch, item)).None?;
      hide PathDirective, SourceDirective, ClockDirective, IdOf;
      IdsOfThree(PathDirective(revision, id, item), SourceDirective(item), ClockDirective(epoch, item), rest);
    }
  }

  lemma {:induction false} RuleDirectivesAt(epoch: TimestampReader, revision: int, ordered: seq<Item>, id: int, k: nat)
    requires k < |ordered|
    ensures |RuleDirectives(epoch, revision, ordered, id)| == 3 * |ordered|
    ensures var ds, item := RuleDirectives(epoch, revision, ordered, id), ordered[k];
      && ds[3 * k] == PathDirective(revision, id + k, item)
      && ds[3 * k + 1] == SourceDirective(item) && ds[3 * k + 2] == ClockDirective(epoch, item)
  {
    hide PathDirective, SourceDirective, ClockDirective;
    if k > 0 {
      RuleDirectivesAt(epoch, revision, ordered[1..], id + 1, k - 1);
    } else if |ordered| > 1 {
      RuleDirectivesAt(epoch, revision, ordered[1..], id + 1, 0);
    }
  }

  /** The k-th rule of a rendered file: it denies with 403 in phase 1, and its tags tell revision and recommendation. */
  lemma RenderedRule(epoch: TimestampReader, revision: int, items: seq<Item>, k: nat)
    requires Renderable(items) && k < |items|
    ensures Parse(Content(epoch, revision, items)).Some?
    ensures |Parse(Content(epoch, revision, items)).value| == 3 * |items|
    ensures var ds, item := Parse(Content(epoch, revision, items)).value, Ordered(epoch, items)[k];
      && ds[3 * k].variable == "REQUEST_FILENAME" && ds[3 * k].argument == "/records/search"
      && ds[3 * k].actions == ["chain", "id:" + IntText(10000 + k), "phase:1", "deny", "log", "status:403", "t:none",
                               "msg:'PR7 WAF block'", "tag:'pr7'", "tag:'revision-" + IntText(revision) + "'",
                               "tag:'recommendation-" + IntText(item.recommendationId) + "'"]
      && ds[3 * k + 1].argument == item.sourceIp
      && ds[3 * k + 2].argument == IntText(ExpiryMs(epoch, item) / 1000 - 1)
  {
    hide Content, Parse, Ordered, RuleDirectives, IntText;
    ContentParses(epoch, revision, items);
    RuleDirectivesAt(epoch, revision, Ordered(epoch, items), RULE_ID_START, k);
  }

  /** The ids of a rendered file are 10000, 10001, ... one per item, all different and at most 10511. */
  lemma RenderedIds(epoch: TimestampReader, revision: int, items: seq<Item>)
    requires Renderable(items) && |items| <= MAX_ITEMS
    ensures Parse(Content(epoch, revision, items)).Some?
    ensures var ids := Ids(Parse(Content(epoch, revision, items)).value);
      && |ids| == |items|
      && (forall k :: 0 <= k < |ids| ==> ids[k] == 10000 + k && 10000 <= ids[k] <= 10511)
  {
    hide Content, Parse, Ordered, RuleDirectives, Ids;
    ContentParses(epoch, revision, items);
    RuleIdsCount(epoch, revision, Ordered(epoch, items), RULE_ID_START);
  }
}
