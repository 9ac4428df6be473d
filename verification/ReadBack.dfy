/** The regular expressions with which the NGINX controller reads a candidate file back. */
module ReadBack {
  import opened Wrappers
  import opened Text

  predicate StartsWith(s: string, marker: string) { |marker| <= |s| && s[..|marker|] == marker }

  /** The longest prefix of s whose characters satisfy the class. */
  function Run(s: string, inClass: char -> bool): (r: string)
    ensures |r| <= |s| && s[..|r|] == r
    ensures forall i :: 0 <= i < |r| ==> inClass(r[i])
    ensures |r| < |s| ==> !inClass(s[|r|])
  {
    if s != "" && inClass(s[0]) then
      var rest := Run(s[1..], inClass);
      assert s == [s[0]] + s[1..];
      [s[0]] + rest
    else ""
  }

  /** The pattern marker([class]+)after, matched at the front of s. */
  datatype Pattern = Pattern(marker: string, inClass: char -> bool, after: string)

  function MatchHere(s: string, p: Pattern): (r: Option<string>)
    ensures r.Some? ==> |p.marker| + |r.value| + |p.after| <= |s| && r.value != ""
  {
    if StartsWith(s, p.marker) then
      var run := Run(s[|p.marker|..], p.inClass);
      if run != "" && StartsWith(s[|p.marker| + |run|..], p.after) then Some(run) else None
    else None
  }

  /** re.search: the group captured by the leftmost match. */
  function Search(s: string, p: Pattern): Option<string> {
    if MatchHere(s, p).Some? then MatchHere(s, p)
    else if s == "" then None
    else Search(s[1..], p)
  }

  /** re.findall: the groups captured by successive matches. */
  function FindAll(s: string, p: Pattern): seq<string> {
    if s == "" then []
    else if MatchHere(s, p).Some? then
      var group := MatchHere(s, p).value;
      [group] + FindAll(s[|p.marker| + |group| + |p.after|..], p)
    else FindAll(s[1..], p)
  }

  /** re.split on a lookahead: cut in front of every occurrence of the marker. */
  function SplitBefore(s: string, marker: string): (parts: seq<string>)
    ensures |parts| > 0
  {
    if s == "" then [""]
    else
      var rest := SplitBefore(s[1..], marker);
      var here := [[s[0]] + rest[0]] + rest[1..];
      if StartsWith(s, marker) then [""] + here else here
  }

  function SourcePattern(): Pattern { Pattern("@ipMatch ", IpChar, "") }

  function ExpiryPattern(): Pattern { Pattern("SecRule TIME_EPOCH \"@lt ", IsDigit, "\"") }

  function RecommendationPattern(): Pattern { Pattern("tag:'recommendation-", IsDigit, "'") }

  const RULE_MARKER := "SecRule REQUEST_FILENAME"

  /** _candidate_sources; None is its ValueError. */
  function CandidateSources(text: string): Option<seq<string>> {
    var sources := FindAll(text, SourcePattern());
    if sources == [] then None else Some(sources)
  }

  datatype Active = Active(source: string, recommendation: Option<int>, expiry: int)

  function DigitsValue(s: string): nat { if AllDigits(s) then NatValue(s) else 0 }

  function OptionalNumber(s: Option<string>): Option<int> {
    match s
    case Some(digits) => Some(DigitsValue(digits))
    case None => None
  }

  /** What one chunk of the file contributes to the rules still in force. */
  function ChunkRule(chunk: string, now: int): Option<Active> {
    var source := Search(chunk, SourcePattern());
    var expiry := OptionalNumber(Search(chunk, ExpiryPattern()));
    var recommendation := OptionalNumber(Search(chunk, RecommendationPattern()));
    if source.Some? && (expiry.None? || now < expiry.value)
    then Some(Active(source.value, recommendation, expiry.GetOr(0))) else None
  }

  function ActiveRules(chunks: seq<string>, now: int): seq<Active> {
    if chunks == [] then []
    else
      var rest := ActiveRules(chunks[1..], now);
      var rule := ChunkRule(chunks[0], now);
      if rule.Some? then [rule.value] + rest else rest
  }

  /** max(active, key=expiry): the first of the greatest. */
  function LatestRule(active: seq<Active>): (r: Active)
    requires active != []
    ensures r in active
    ensures forall a :: a in active ==> a.expiry <= r.expiry
  {
    if |active| == 1 then active[0]
    else
      var rest := LatestRule(active[1..]);
      assert active == [active[0]] + active[1..];
      if active[0].expiry >= rest.expiry then active[0] else rest
  }

  lemma {:induction false} LatestRuleIsFirst(active: seq<Active>) returns (i: nat)
    requires active != []
    ensures i < |active| && LatestRule(active) == active[i]
    ensures forall j :: 0 <= j < i ==> active[j].expiry < active[i].expiry
  {
    i := 0;
    if |active| > 1 {
      var k := LatestRuleIsFirst(active[1..]);
      i := if active[0].expiry >= active[1..][k].expiry then 0 else k + 1;
      assert forall j :: 1 <= j < |active| ==> active[j] == active[1..][j - 1];
    }
  }

  /** _candidate_probe_rule at clock second now; None is its ValueError. */
  function ProbeRule(text: string, now: int): Option<Active> {
    var active := ActiveRules(SplitBefore(text, RULE_MARKER), now);
    if active == [] then None else Some(LatestRule(active))
  }
}
