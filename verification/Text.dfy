/** Decimal numbers, dotted quads and splitting, at the level of characters. */
module Text {
  import opened Wrappers

  // ---------------------------------------------------------------- digits

  predicate IsDigit(c: char) { '0' <= c <= '9' }

  predicate AllDigits(s: string) { forall i :: 0 <= i < |s| ==> IsDigit(s[i]) }

  function DigitValue(c: char): nat
    requires IsDigit(c)
  {
    c as int - 48
  }

  function DigitChar(d: nat): (c: char)
    requires d < 10
    ensures IsDigit(c) && DigitValue(c) == d
  {
    (48 + d) as char
  }

  /** Python's str() of a non-negative integer. */
  function NatText(n: nat): (s: string)
    ensures |s| > 0 && AllDigits(s)
  {
    if n < 10 then [DigitChar(n)] else NatText(n / 10) + [DigitChar(n % 10)]
  }

  /** Python's int() of a run of decimal digits. */
  function NatValue(s: string): nat
    requires AllDigits(s)
  {
    if s == "" then 0 else NatValue(s[..|s| - 1]) * 10 + DigitValue(s[|s| - 1])
  }

  lemma {:induction false} NatRoundTrip(n: nat)
    ensures NatValue(NatText(n)) == n
  {
    if n >= 10 {
      NatRoundTrip(n / 10);
      assert NatText(n)[..|NatText(n)| - 1] == NatText(n / 10);
    }
  }

  /** Python's str() of an integer of either sign. */
  function IntText(n: int): (s: string)
    ensures |s| > 0
    ensures n >= 0 ==> AllDigits(s)
    ensures n < 0 ==> |s| > 1 && s[0] == '-' && AllDigits(s[1..])
  {
    if n < 0 then "-" + NatText(-n) else NatText(n)
  }

  predicate IsIntText(s: string) {
    if s != "" && s[0] == '-' then |s| > 1 && AllDigits(s[1..]) else s != "" && AllDigits(s)
  }

  function IntValue(s: string): int
    requires IsIntText(s)
  {
    if s[0] == '-' then 0 - NatValue(s[1..]) else NatValue(s)
  }

  lemma IntRoundTrip(n: int)
    ensures IsIntText(IntText(n)) && IntValue(IntText(n)) == n
  {
    if n < 0 {
      assert IntText(n)[1..] == NatText(-n);
      NatRoundTrip(-n);
    } else {
      NatRoundTrip(n);
      assert IsDigit(IntText(n)[0]);
    }
  }

  // ------------------------------------------------------------- splitting

  /** Everything between the occurrences of c, as Python's str.split(c). */
  function Split(s: string, c: char): (parts: seq<string>)
    ensures |parts| > 0
  {
    if s == "" then [""]
    else
      var rest := Split(s[1..], c);
      if s[0] == c then [""] + rest else [[s[0]] + rest[0]] + rest[1..]
  }

  /** Splitting undoes joining: a piece without the separator comes back whole. */
  lemma {:induction false} SplitFirst(a: string, c: char, b: string)
    requires c !in a
    ensures Split(a + [c] + b, c) == [a] + Split(b, c)
  {
    var s := a + [c] + b;
    if a == "" {
      assert s[1..] == b;
    } else {
      assert s[1..] == a[1..] + [c] + b;
      SplitFirst(a[1..], c, b);
      assert [a[0]] + a[1..] == a;
    }
  }

  lemma {:induction false} SplitWhole(a: string, c: char)
    requires c !in a
    ensures Split(a, c) == [a]
  {
    if a != "" {
      SplitWhole(a[1..], c);
      assert [a[0]] + a[1..] == a;
    }
  }

  /** Python's sep.join(parts) for a one-character separator. */
  function Join(parts: seq<string>, sep: char): string {
    if parts == [] then ""
    else if |parts| == 1 then parts[0]
    else parts[0] + [sep] + Join(parts[1..], sep)
  }

  lemma {:induction false} SplitJoin(parts: seq<string>, sep: char)
    requires parts != []
    requires forall i :: 0 <= i < |parts| ==> sep !in parts[i]
    ensures Split(Join(parts, sep), sep) == parts
  {
    if |parts| == 1 {
      SplitWhole(parts[0], sep);
    } else {
      SplitFirst(parts[0], sep, Join(parts[1..], sep));
      SplitJoin(parts[1..], sep);
      assert parts == [parts[0]] + parts[1..];
    }
  }

  /** A character outside every part and different from the separator is not in the joined text. */
  lemma {:induction false} JoinLacks(parts: seq<string>, sep: char, c: char)
    requires c != sep
    requires forall i :: 0 <= i < |parts| ==> c !in parts[i]
    ensures c !in Join(parts, sep)
  {
    if |parts| > 1 {
      JoinLacks(parts[1..], sep, c);
    }
  }

  lemma NumberLacks(n: int, c: char)
    requires !IsDigit(c) && c != '-'
    ensures c !in IntText(n)
  {
    if n < 0 {
      assert IntText(n) == [IntText(n)[0]] + IntText(n)[1..];
    }
  }

  // ------------------------------------------------------------------ IPv4

  const IPV4_SPACE: nat := 0x1_0000_0000

  /** str(ipaddress.IPv4Address(v)). */
  function IpText(v: nat): string
    requires v < IPV4_SPACE
  {
    NatText(v / 0x100_0000) + "." + NatText(v / 0x1_0000 % 0x100) + "." +
    NatText(v / 0x100 % 0x100) + "." + NatText(v % 0x100)
  }

  /** One octet as ipaddress parses it: one to three digits, no leading zero, at most 255. */
  function Octet(s: string): (v: Option<nat>)
    ensures v.Some? ==> v.value < 256
  {
    if 1 <= |s| <= 3 && AllDigits(s) && (|s| > 1 ==> s[0] != '0') && NatValue(s) <= 255
    then Some(NatValue(s)) else None
  }

  /** ipaddress.ip_address restricted to IPv4. */
  function ParseIp(s: string): (v: Option<nat>)
    ensures v.Some? ==> v.value < IPV4_SPACE
  {
    var parts := Split(s, '.');
    if |parts| != 4 then None
    else
      match (Octet(parts[0]), Octet(parts[1]), Octet(parts[2]), Octet(parts[3]))
      case (Some(a), Some(b), Some(c), Some(d)) => Some(a * 0x100_0000 + b * 0x1_0000 + c * 0x100 + d)
      case _ => None
  }

  lemma OctetRoundTrip(v: nat)
    requires v < 256
    ensures Octet(NatText(v)) == Some(v)
    ensures '.' !in NatText(v)
  {
    NatRoundTrip(v);
    if v >= 100 {
      assert NatText(v / 100) == [DigitChar(v / 100)];
      assert NatText(v / 10) == NatText(v / 10 / 10) + [DigitChar(v / 10 % 10)];
      assert NatText(v)[0] == DigitChar(v / 100);
    }
  }

  lemma SplitQuad(a: string, b: string, c: string, d: string)
    requires '.' !in a && '.' !in b && '.' !in c && '.' !in d
    ensures Split(a + "." + b + "." + c + "." + d, '.') == [a, b, c, d]
  {
    var cd := c + ['.'] + d;
    var bcd := b + ['.'] + cd;
    assert a + "." + b + "." + c + "." + d == a + ['.'] + bcd;
    calc {
      Split(a + ['.'] + bcd, '.');
      { SplitFirst(a, '.', bcd); }
      [a] + Split(bcd, '.');
      { SplitFirst(b, '.', cd); }
      [a] + ([b] + Split(cd, '.'));
      { SplitFirst(c, '.', d); SplitWhole(d, '.'); }
      [a] + ([b] + ([c] + [d]));
    }
  }

  lemma QuadValue(v: nat)
    requires v < IPV4_SPACE
    ensures v / 0x100_0000 < 256
    ensures v / 0x100_0000 * 0x100_0000 + v / 0x1_0000 % 0x100 * 0x1_0000 + v / 0x100 % 0x100 * 0x100 + v % 0x100 == v
  {
    var w := v / 0x100;
    var x := w / 0x100;
    assert x == v / 0x1_0000 && x / 0x100 == v / 0x100_0000;
  }

  /** Parsing undoes printing for every address. */
  lemma IpRoundTrip(v: nat)
    requires v < IPV4_SPACE
    ensures ParseIp(IpText(v)) == Some(v)
  {
    var a, b, c, d := v / 0x100_0000, v / 0x1_0000 % 0x100, v / 0x100 % 0x100, v % 0x100;
    OctetRoundTrip(a);
    OctetRoundTrip(b);
    OctetRoundTrip(c);
    OctetRoundTrip(d);
    SplitQuad(NatText(a), NatText(b), NatText(c), NatText(d));
    QuadValue(v);
  }

  lemma IpTextInjective(v: nat, w: nat)
    requires v < IPV4_SPACE && w < IPV4_SPACE && IpText(v) == IpText(w)
    ensures v == w
  {
    IpRoundTrip(v);
    IpRoundTrip(w);
  }

  /** What _canonical_ip accepts: a text that parses and prints back to itself. */
  predicate CanonicalIp(s: string) {
    var v := ParseIp(s);
    v.Some? && IpText(v.value) == s
  }

  predicate IpChar(c: char) { IsDigit(c) || c == '.' }

  predicate AllIpChars(s: string) { forall i :: 0 <= i < |s| ==> IpChar(s[i]) }

  /** The accepted texts are exactly the printed addresses, all of digits and dots. */
  lemma CanonicalIpIsPrinted(s: string)
    ensures CanonicalIp(s) <==> exists v: nat :: v < IPV4_SPACE && IpText(v) == s
    ensures CanonicalIp(s) ==> |s| > 0 && AllIpChars(s) && IsDigit(s[0])
  {
    if v: nat :| v < IPV4_SPACE && IpText(v) == s {
      IpRoundTrip(v);
    }
  }

  // --------------------------------------------------------------- ordering

  /** Python's < on str: code points, lexicographically. */
  predicate TextLess(a: string, b: string) {
    b != "" && (a == "" || a[0] < b[0] || (a[0] == b[0] && TextLess(a[1..], b[1..])))
  }

  lemma {:induction false} TextLessIsTotal(a: string, b: string)
    ensures a == b || TextLess(a, b) || TextLess(b, a)
    ensures !(TextLess(a, b) && TextLess(b, a))
    ensures !TextLess(a, a)
  {
    if a != "" && b != "" {
      TextLessIsTotal(a[1..], b[1..]);
      TextLessIsTotal(a[1..], a[1..]);
      assert a == [a[0]] + a[1..] && b == [b[0]] + b[1..];
    } else if a != "" {
      TextLessIsTotal(a[1..], a[1..]);
    }
  }

  lemma {:induction false} TextLessTransitive(a: string, b: string, c: string)
    requires TextLess(a, b) && TextLess(b, c)
    ensures TextLess(a, c)
  {
    if a != "" && a[0] == b[0] == c[0] {
      TextLessTransitive(a[1..], b[1..], c[1..]);
    }
  }
}
