/**
 * The canonical printer behind the state checksum: json.dumps with sorted keys, compact
 * separators and ensure_ascii. Each function prints its value in front of a given tail.
 * The lemmas show that the printed text determines the value.
 */
module CanonicalJson {
  import opened Wrappers
  import opened Text
  import opened Items

  // ------------------------------------------------------------- characters

  function HexDigit(c: char): nat {
    if '0' <= c <= '9' then c as int - 48 else if 'a' <= c <= 'f' then c as int - 87 else 0
  }

  function HexChar(d: nat): (c: char)
    requires d < 16
    ensures HexDigit(c) == d
  {
    if d < 10 then (48 + d) as char else (87 + d) as char
  }

  function Hex4(v: nat): (s: string)
    requires v < 0x1_0000
    ensures |s| == 4
  {
    [HexChar(v / 0x1000), HexChar(v / 0x100 % 16), HexChar(v / 16 % 16), HexChar(v % 16)]
  }

  function Hex4Value(s: string): nat {
    if |s| < 4 then 0
    else HexDigit(s[0]) * 0x1000 + HexDigit(s[1]) * 0x100 + HexDigit(s[2]) * 16 + HexDigit(s[3])
  }

  lemma Hex4RoundTrip(v: nat, tail: string)
    requires v < 0x1_0000
    ensures Hex4Value(Hex4(v) + tail) == v
  {
    var w := v / 16;
    var x := w / 16;
    assert x == v / 0x100 && x / 16 == v / 0x1000;
  }

  /** The letter after the backslash in a two-character escape. */
  function ShortEscape(c: char): Option<char> {
    match c
    case '"' => Some('"')
    case '\\' => Some('\\')
    case '\n' => Some('n')
    case '\r' => Some('r')
    case '\t' => Some('t')
    case _ => if c as int == 8 then Some('b') else if c as int == 12 then Some('f') else None
  }

  function ShortMeaning(e: char): int {
    match e
    case 'n' => 10
    case 'r' => 13
    case 't' => 9
    case 'b' => 8
    case 'f' => 12
    case _ => e as int
  }

  /** One character under ensure_ascii; beyond the BMP it becomes a surrogate pair. */
  function CharThen(c: char, tail: string): (s: string)
    ensures |s| > 0 && s[0] != '"'
  {
    var v := c as int;
    if ShortEscape(c).Some? then ['\\', ShortEscape(c).value] + tail
    else if 32 <= v <= 126 then [c] + tail
    else if v < 0x1_0000 then "\\u" + (Hex4(v) + tail)
    else "\\u" + (Hex4(0xD800 + (v - 0x1_0000) / 0x400) + ("\\u" + (Hex4(0xDC00 + (v - 0x1_0000) % 0x400) + tail)))
  }

  /** Reads one printed character back: its code point and the number of characters used. */
  function ReadChar(s: string): (int, nat) {
    if s == "" then (0, 0)
    else if s[0] != '\\' || |s| == 1 then (s[0] as int, 1)
    else if s[1] != 'u' then (ShortMeaning(s[1]), 2)
    else
      var v := Hex4Value(s[2..]);
      if 0xD800 <= v < 0xDC00 && |s| >= 12
      then (0x1_0000 + (v - 0xD800) * 0x400 + (Hex4Value(s[8..]) - 0xDC00), 12)
      else (v, 6)
  }

  /** A four-digit escape below or above the surrogates reads back as itself. */
  lemma UnitRoundTrip(v: nat, tail: string)
    requires v < 0xD800 || 0xDC00 <= v < 0x1_0000
    ensures ReadChar("\\u" + (Hex4(v) + tail)) == (v, 6)
    ensures ("\\u" + (Hex4(v) + tail))[6..] == tail
  {
    hide Hex4, Hex4Value;
    var s := "\\u" + (Hex4(v) + tail);
    assert s[2..] == Hex4(v) + tail;
    Hex4RoundTrip(v, tail);
  }

  lemma PairRoundTrip(hi: nat, lo: nat, tail: string)
    requires hi < 0x400 && lo < 0x400
    ensures var s := "\\u" + (Hex4(0xD800 + hi) + ("\\u" + (Hex4(0xDC00 + lo) + tail)));
      ReadChar(s) == (0x1_0000 + hi * 0x400 + lo, 12) && s[12..] == tail
  {
    hide Hex4, Hex4Value;
    var low := Hex4(0xDC00 + lo) + tail;
    var s := "\\u" + (Hex4(0xD800 + hi) + ("\\u" + low));
    assert s[2..] == Hex4(0xD800 + hi) + ("\\u" + low);
    assert s[8..] == low;
    Hex4RoundTrip(0xD800 + hi, "\\u" + low);
    Hex4RoundTrip(0xDC00 + lo, tail);
  }

  lemma CharRoundTrip(c: char, tail: string)
    ensures var (v, n) := ReadChar(CharThen(c, tail));
      v == c as int && n <= |CharThen(c, tail)| && CharThen(c, tail)[n..] == tail
  {
    hide Hex4, Hex4Value;
    var v := c as int;
    if ShortEscape(c).Some? || 32 <= v <= 126 {
    } else if v < 0x1_0000 {
      UnitRoundTrip(v, tail);
    } else {
      PairRoundTrip((v - 0x1_0000) / 0x400, (v - 0x1_0000) % 0x400, tail);
    }
  }

  lemma CharDetermined(c: char, x: string, d: char, y: string)
    requires CharThen(c, x) == CharThen(d, y)
    ensures c == d && x == y
  {
    CharRoundTrip(c, x);
    CharRoundTrip(d, y);
  }

  /** The two-character escapes, the characters printed as they are, and lower-case hexadecimal for all others. */
  lemma EscapesAre(c: char, tail: string)
    ensures CharThen('"', tail) == "\\\"" + tail && CharThen('\\', tail) == "\\\\" + tail
    ensures CharThen('\n', tail) == "\\n" + tail && CharThen('\r', tail) == "\\r" + tail
    ensures CharThen('\t', tail) == "\\t" + tail
    ensures CharThen('\U{8}', tail) == "\\b" + tail && CharThen('\U{c}', tail) == "\\f" + tail
    ensures ' ' <= c <= '~' && c != '"' && c != '\\' ==> CharThen(c, tail) == [c] + tail
    ensures c < ' ' && ShortEscape(c).None? ==> CharThen(c, tail) == "\\u" + (Hex4(c as int) + tail)
    ensures '~' < c && c as int < 0x1_0000 ==> CharThen(c, tail) == "\\u" + (Hex4(c as int) + tail)
  {
  }

  lemma HexIsLowerCase(v: int)
    requires 0 <= v < 16
    ensures HexChar(v) == "0123456789abcdef"[v]
  {
  }

  // ---------------------------------------------------------------- scalars

  function CharsThen(s: string, tail: string): string {
    if s == "" then tail else CharThen(s[0], CharsThen(s[1..], tail))
  }

  function StringThen(s: string, tail: string): string { "\"" + CharsThen(s, "\"" + tail) }

  lemma {:induction false} CharsDetermined(s: string, x: string, t: string, y: string)
    requires CharsThen(s, "\"" + x) == CharsThen(t, "\"" + y)
    ensures s == t && x == y
  {
    if s == "" || t == "" {
      assert ("\"" + x)[1..] == x && ("\"" + y)[1..] == y;
    } else {
      CharDetermined(s[0], CharsThen(s[1..], "\"" + x), t[0], CharsThen(t[1..], "\"" + y));
      CharsDetermined(s[1..], x, t[1..], y);
      assert s == [s[0]] + s[1..] && t == [t[0]] + t[1..];
    }
  }

  predicate EndsNumber(tail: string) { tail != "" && !IsDigit(tail[0]) }

  lemma {:induction false} DigitsDetermined(s: string, x: string, t: string, y: string)
    requires AllDigits(s) && AllDigits(t) && EndsNumber(x) && EndsNumber(y) && s + x == t + y
    ensures s == t && x == y
  {
    assert (s + x)[0] == (t + y)[0];
    if s == "" || t == "" {
      assert "" + x == x && "" + y == y;
    } else {
      assert (s + x)[1..] == s[1..] + x && (t + y)[1..] == t[1..] + y;
      DigitsDetermined(s[1..], x, t[1..], y);
      assert s == [s[0]] + s[1..] && t == [t[0]] + t[1..];
    }
  }

  lemma IntDetermined(m: int, x: string, n: int, y: string)
    requires EndsNumber(x) && EndsNumber(y) && IntText(m) + x == IntText(n) + y
    ensures m == n && x == y
  {
    var s, t := IntText(m), IntText(n);
    assert (s + x)[0] == s[0] && (t + y)[0] == t[0];
    if m < 0 || n < 0 {
      assert m < 0 && n < 0;
      assert (s + x)[1..] == s[1..] + x && (t + y)[1..] == t[1..] + y;
      DigitsDetermined(s[1..], x, t[1..], y);
      assert s == [s[0]] + s[1..] && t == [t[0]] + t[1..];
    } else {
      DigitsDetermined(s, x, t, y);
    }
    IntRoundTrip(m);
    IntRoundTrip(n);
  }

  lemma SamePrefix(p: string, x: string, y: string)
    requires p + x == p + y
    ensures x == y
  {
    assert (p + x)[|p|..] == x && (p + y)[|p|..] == y;
  }

  lemma IntField(field: string, m: int, x: string, n: int, y: string)
    requires EndsNumber(x) && EndsNumber(y)
    requires field + (IntText(m) + x) == field + (IntText(n) + y)
    ensures m == n && x == y
  {
    SamePrefix(field, IntText(m) + x, IntText(n) + y);
    IntDetermined(m, x, n, y);
  }

  lemma StringField(field: string, s: string, x: string, t: string, y: string)
    requires field + StringThen(s, x) == field + StringThen(t, y)
    ensures s == t && x == y
  {
    SamePrefix(field, StringThen(s, x), StringThen(t, y));
    SamePrefix("\"", CharsThen(s, "\"" + x), CharsThen(t, "\"" + y));
    CharsDetermined(s, x, t, y);
  }

  // ------------------------------------------------------------------ items

  function SourceThen(item: Item, tail: string): string {
    ",\"source_ip\":" + StringThen(item.sourceIp, "}" + tail)
  }

  function PathThen(item: Item, tail: string): string {
    ",\"request_path\":" + StringThen(item.requestPath, SourceThen(item, tail))
  }

  function RecommendationThen(item: Item, tail: string): string {
    ",\"recommendation_id\":" + (IntText(item.recommendationId) + PathThen(item, tail))
  }

  function ExpiryThen(item: Item, tail: string): string {
    ",\"expires_at\":" + StringThen(item.expiresAt, RecommendationThen(item, tail))
  }

  function ItemThen(item: Item, tail: string): (s: string)
    ensures |s| > 0 && s[0] == '{'
  {
    "{\"entry_id\":" + (IntText(item.entryId) + ExpiryThen(item, tail))
  }

  lemma ItemDetermined(a: Item, x: string, b: Item, y: string)
    requires ItemThen(a, x) == ItemThen(b, y)
    ensures a == b && x == y
  {
    IntField("{\"entry_id\":", a.entryId, ExpiryThen(a, x), b.entryId, ExpiryThen(b, y));
    StringField(",\"expires_at\":", a.expiresAt, RecommendationThen(a, x), b.expiresAt, RecommendationThen(b, y));
    IntField(",\"recommendation_id\":", a.recommendationId, PathThen(a, x), b.recommendationId, PathThen(b, y));
    StringField(",\"request_path\":", a.requestPath, SourceThen(a, x), b.requestPath, SourceThen(b, y));
    StringField(",\"source_ip\":", a.sourceIp, "}" + x, b.sourceIp, "}" + y);
    SamePrefix("}", x, y);
  }

  /** The elements after the first, each behind its comma, and the closing bracket. */
  function RestThen(items: seq<Item>, tail: string): (s: string)
    ensures |s| > 0 && s[0] == if items == [] then ']' else ','
  {
    if items == [] then "]" + tail else "," + ItemThen(items[0], RestThen(items[1..], tail))
  }

  function ItemsThen(items: seq<Item>, tail: string): (s: string)
    ensures |s| > 0 && s[0] == if items == [] then ']' else '{'
  {
    if items == [] then "]" + tail else ItemThen(items[0], RestThen(items[1..], tail))
  }

  lemma {:induction false} RestDetermined(s: seq<Item>, x: string, t: seq<Item>, y: string)
    requires RestThen(s, x) == RestThen(t, y)
    ensures s == t && x == y
  {
    hide ItemThen;
    if s == [] {
      SamePrefix("]", x, y);
    } else {
      var s', t' := RestThen(s[1..], x), RestThen(t[1..], y);
      SamePrefix(",", ItemThen(s[0], s'), ItemThen(t[0], t'));
      ItemDetermined(s[0], s', t[0], t');
      RestDetermined(s[1..], x, t[1..], y);
      assert s == [s[0]] + s[1..] && t == [t[0]] + t[1..];
    }
  }

  lemma ItemsDetermined(s: seq<Item>, x: string, t: seq<Item>, y: string)
    requires ItemsThen(s, x) == ItemsThen(t, y)
    ensures s == t && x == y
  {
    hide ItemThen;
    if s == [] {
      SamePrefix("]", x, y);
    } else {
      ItemDetermined(s[0], RestThen(s[1..], x), t[0], RestThen(t[1..], y));
      RestDetermined(s[1..], x, t[1..], y);
      assert s == [s[0]] + s[1..] && t == [t[0]] + t[1..];
    }
  }

  // ------------------------------------------------------------------ state

  datatype State = State(schema: int, policy: string, revision: int, scope: string, items: seq<Item>)

  function ScopeThen(s: State): string { ",\"scope\":" + StringThen(s.scope, "}") }

  function SchemaThen(s: State): string { ",\"schema_version\":" + (IntText(s.schema) + ScopeThen(s)) }

  function RevisionThen(s: State): string { ",\"revision\":" + (IntText(s.revision) + SchemaThen(s)) }

  function PolicyThen(s: State): string { ",\"policy_version\":" + StringThen(s.policy, RevisionThen(s)) }

  /** The bytes hashed by canonical_state_checksum, for items already in order. */
  function StateText(s: State): string { "{\"items\":[" + ItemsThen(s.items, PolicyThen(s)) }

  /** The canonical text determines every field and every item in order. */
  lemma StateTextInjective(s: State, t: State)
    requires StateText(s) == StateText(t)
    ensures s == t
  {
    SamePrefix("{\"items\":[", ItemsThen(s.items, PolicyThen(s)), ItemsThen(t.items, PolicyThen(t)));
    ItemsDetermined(s.items, PolicyThen(s), t.items, PolicyThen(t));
    StringField(",\"policy_version\":", s.policy, RevisionThen(s), t.policy, RevisionThen(t));
    IntField(",\"revision\":", s.revision, SchemaThen(s), t.revision, SchemaThen(t));
    IntField(",\"schema_version\":", s.schema, ScopeThen(s), t.schema, ScopeThen(t));
    StringField(",\"scope\":", s.scope, "}", t.scope, "}");
  }

  predicate NeedsNoEscape(s: string) {
    forall i :: 0 <= i < |s| ==> ' ' <= s[i] <= '~' && s[i] != '"' && s[i] != '\\'
  }

  lemma {:induction false} PlainString(s: string, tail: string)
    requires NeedsNoEscape(s)
    ensures CharsThen(s, tail) == s + tail
  {
    if s == "" {
      assert s + tail == tail;
    } else {
      PlainString(s[1..], tail);
      assert [s[0]] + (s[1..] + tail) == s + tail;
    }
  }

  function Quoted(s: string, tail: string): string { "\"" + (s + ("\"" + tail)) }

  /** The text of a state with one item, spelled out: keys sorted, no blanks, numbers bare, strings quoted. */
  lemma OneItemSpelled(s: State, x: Item)
    requires s.items == [x] && NeedsNoEscape(s.policy) && NeedsNoEscape(s.scope)
    requires NeedsNoEscape(x.expiresAt) && NeedsNoEscape(x.requestPath) && NeedsNoEscape(x.sourceIp)
    ensures StateText(s)
            == "{\"items\":[" + ("{\"entry_id\":" + (IntText(x.entryId)
               + (",\"expires_at\":" + Quoted(x.expiresAt, ",\"recommendation_id\":" + (IntText(x.recommendationId)
               + (",\"request_path\":" + Quoted(x.requestPath, ",\"source_ip\":" + Quoted(x.sourceIp, "}" + ("]"
               + (",\"policy_version\":" + Quoted(s.policy, ",\"revision\":" + (IntText(s.revision)
               + (",\"schema_version\":" + (IntText(s.schema)
               + (",\"scope\":" + Quoted(s.scope, "}"))))))))))))))))
  {
    PlainString(s.scope, "\"" + "}");
    PlainString(s.policy, "\"" + RevisionThen(s));
    PlainString(x.sourceIp, "\"" + ("}" + ("]" + PolicyThen(s))));
    PlainString(x.requestPath, "\"" + SourceThen(x, "]" + PolicyThen(s)));
    PlainString(x.expiresAt, "\"" + RecommendationThen(x, "]" + PolicyThen(s)));
    assert RestThen(s.items[1..], PolicyThen(s)) == "]" + PolicyThen(s);
    hide CharsThen, IntText;
  }
}
