/** render_candidate: from policy items to the text of chained SecRule directives. */
module Render {
  import opened Wrappers
  import opened Text
  import opened Items
  import opened Snapshots

  const RULE_ID_START := 10000
  const HEADER := "# PR7 dynamic WAF candidate"

  /** The bytes of the canonical empty file. */
  const EMPTY: string := HEADER + "\n"

  function Actions(revision: int, id: int, item: Item): seq<string> {
    [ "chain", "id:" + IntText(id), "phase:1", "deny", "log", "status:403", "t:none", "msg:'PR7 WAF block'",
      "tag:'pr7'", "tag:'revision-" + IntText(revision) + "'",
      "tag:'recommendation-" + IntText(item.recommendationId) + "'" ]
  }

  /** One directive: a variable, the test on it, and a list of actions. */
  function SecRule(variable: string, test: string, actions: string): string {
    "SecRule " + variable + " " + "\"" + test + "\" \"" + actions + "\""
  }

  const INDENT := "    "

  function PathLine(revision: int, id: int, item: Item): string {
    SecRule("REQUEST_FILENAME", "@streq " + PATH, Join(Actions(revision, id, item), ','))
  }

  function SourceLine(item: Item): string {
    INDENT + SecRule("REMOTE_ADDR", "@ipMatch " + item.sourceIp, "chain,t:none")
  }

  function ClockLine(epoch: TimestampReader, item: Item): string {
    INDENT + SecRule("TIME_EPOCH", "@lt " + IntText(Cutoff(epoch, item)), "t:none")
  }

  function Rule(epoch: TimestampReader, revision: int, id: int, item: Item): seq<string> {
    [PathLine(revision, id, item), SourceLine(item), ClockLine(epoch, item)]
  }

  /** The rule lines of a list of items whose first rule has the given id. */
  function Rules(epoch: TimestampReader, revision: int, ordered: seq<Item>, id: int): seq<string> {
    if ordered == [] then []
    else Rule(epoch, revision, id, ordered[0]) + Rules(epoch, revision, ordered[1..], id + 1)
  }

  function Lines(epoch: TimestampReader, revision: int, items: seq<Item>): seq<string> {
    [HEADER] + Rules(epoch, revision, Ordered(epoch, items), RULE_ID_START)
  }

  /** The whole candidate file. */
  function Content(epoch: TimestampReader, revision: int, items: seq<Item>): string {
    Join(Lines(epoch, revision, items), '\n') + "\n"
  }

  function SnapshotContent(epoch: TimestampReader, s: Snapshot): string {
    Content(epoch, s.revision, s.items)
  }

  lemma RulesStep(epoch: TimestampReader, revision: int, ordered: seq<Item>, k: nat, id: int, lines: seq<string>)
    requires k < |ordered|
    ensures lines + Rules(epoch, revision, ordered[k..], id)
            == lines + [PathLine(revision, id, ordered[k])] + [SourceLine(ordered[k])] + [ClockLine(epoch, ordered[k])]
               + Rules(epoch, revision, ordered[k + 1..], id + 1)
  {
    hide PathLine, SourceLine, ClockLine;
    assert ordered[k..][0] == ordered[k] && ordered[k..][1..] == ordered[k + 1..];
    assert Rules(epoch, revision, ordered[k..], id)
        == Rule(epoch, revision, id, ordered[k]) + Rules(epoch, revision, ordered[k + 1..], id + 1);
  }

  datatype RenderedCandidate = RenderedCandidate(content: string, checksum: Digest, revision: int, entryCount: nat)

  /** render_candidate; None is its ValueError for too many items. */
  method RenderCandidate(epoch: TimestampReader, revision: int, items: seq<Item>) returns (r: Option<RenderedCandidate>)
    ensures r.None? <==> |items| > MAX_ITEMS
    ensures r.Some? ==> r.value.content == Content(epoch, revision, items)
    ensures r.Some? ==> r.value.checksum == Sha256(Content(epoch, revision, items))
    ensures r.Some? ==> r.value.revision == revision && r.value.entryCount == |items|
  {
    hide PathLine, SourceLine, ClockLine, Join;
    if |items| > MAX_ITEMS {
      return None;
    }
    var ordered := Ordered(epoch, items);
    var lines := [HEADER];
    assert ordered[0..] == ordered;
    for offset := 0 to |ordered|
      invariant lines + Rules(epoch, revision, ordered[offset..], RULE_ID_START + offset)
                == Lines(epoch, revision, items)
    {
      var item := ordered[offset];
      var id := RULE_ID_START + offset;
      RulesStep(epoch, revision, ordered, offset, id, lines);
      lines := lines + [PathLine(revision, id, item)];
      lines := lines + [SourceLine(item)];
      lines := lines + [ClockLine(epoch, item)];
    }
    assert ordered[|ordered|..] == [];
    assert lines == Lines(epoch, revision, items);
    var content := Join(lines, '\n') + "\n";
    return Some(RenderedCandidate(content, Sha256(content), revision, |ordered|));
  }

  /** Rendering gives the canonical empty file for no items, and only then. */
  lemma EmptyRendering(epoch: TimestampReader, s: Snapshot)
    ensures SnapshotContent(epoch, s) == EMPTY <==> s.items == []
    ensures EMPTY == "# PR7 dynamic WAF candidate\n"
  {
    var rules := Rules(epoch, s.revision, Ordered(epoch, s.items), RULE_ID_START);
    if s.items != [] {
      hide PathLine, SourceLine, ClockLine;
      assert Lines(epoch, s.revision, s.items)[1..] == rules;
      assert |SnapshotContent(epoch, s)| > |EMPTY|;
    }
  }

  /** Validated snapshots with the same state checksum render to the same bytes. */
  lemma ChecksumNamesContent(epoch: TimestampReader, s: Snapshot, t: Snapshot)
    requires Valid(epoch, s) && Valid(epoch, t) && s.stateChecksum == t.stateChecksum
    ensures SnapshotContent(epoch, s) == SnapshotContent(epoch, t)
  {
    ChecksumNamesSnapshot(epoch, s, t);
  }

  // ------------------------------------------------ characters a rule lacks

  lemma TagLacks(prefix: string, n: int, c: char)
    requires c !in prefix && c != '\'' && !IsDigit(c) && c != '-'
    ensures c !in prefix + IntText(n) + "'" && c !in prefix + IntText(n)
  {
    hide IntText;
    NumberLacks(n, c);
  }

  lemma ActionsLack(revision: int, id: int, item: Item, c: char)
    requires c in "\",\n@QC"
    ensures Actions(revision, id, item) != []
    ensures forall i :: 0 <= i < |Actions(revision, id, item)| ==> c !in Actions(revision, id, item)[i]
  {
    hide IntText;
    TagLacks("id:", id, c);
    TagLacks("tag:'revision-", revision, c);
    TagLacks("tag:'recommendation-", item.recommendationId, c);
  }
}
