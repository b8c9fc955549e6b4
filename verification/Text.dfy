/** Character classes, trimming, searching and decimal numerals over ASCII text. */
module Text {
  import opened Wrappers

  predicate IsDigit(c: char) { '0' <= c <= '9' }

  predicate IsAlnum(c: char) { IsDigit(c) || 'a' <= c <= 'z' || 'A' <= c <= 'Z' }

  predicate IsSpace(c: char) {
    c == ' ' || '\t' <= c <= '\r'
  }

  function LowerChar(c: char): char {
    if 'A' <= c <= 'Z' then (c as int + 32) as char else c
  }

  function Lower(s: string): (r: string)
    ensures |r| == |s|
  {
    seq(|s|, i requires 0 <= i < |s| => LowerChar(s[i]))
  }

  function TrimStart(s: string): string {
    if s != "" && IsSpace(s[0]) then TrimStart(s[1..]) else s
  }

  function TrimEnd(s: string): string {
    if s != "" && IsSpace(s[|s| - 1]) then TrimEnd(s[..|s| - 1]) else s
  }

  function Trim(s: string): string {
    TrimEnd(TrimStart(s))
  }

  function StripStart(s: string, chars: string): string {
    if s != "" && s[0] in chars then StripStart(s[1..], chars) else s
  }

  function StripEnd(s: string, chars: string): string {
    if s != "" && s[|s| - 1] in chars then StripEnd(s[..|s| - 1], chars) else s
  }

  // Outer characters of the set, on both ends.
  function Strip(s: string, chars: string): string {
    StripEnd(StripStart(s, chars), chars)
  }

  // ---------- trimming ----------

  predicate AllSpace(s: string) {
    forall c | c in s :: IsSpace(c)
  }

  lemma {:induction false} TrimStartExactly(s: string) returns (a: nat)
    ensures a <= |s| && TrimStart(s) == s[a..] && AllSpace(s[..a]) && (s[a..] != "" ==> !IsSpace(s[a]))
    decreases |s|
  {
    if s != "" && IsSpace(s[0]) {
      a := TrimStartExactly(s[1..]);
      assert s[1..][a..] == s[a + 1..] && s[..a + 1] == [s[0]] + s[1..][..a];
      a := a + 1;
    } else {
      a := 0;
    }
  }

  lemma {:induction false} TrimEndExactly(s: string) returns (b: nat)
    ensures b <= |s| && TrimEnd(s) == s[..b] && AllSpace(s[b..]) && (b > 0 ==> !IsSpace(s[b - 1]))
    decreases |s|
  {
    b := |s|;
    if s != "" && IsSpace(s[|s| - 1]) {
      b := TrimEndExactly(s[..|s| - 1]);
      assert s[..|s| - 1][..b] == s[..b] && s[b..] == s[..|s| - 1][b..] + [s[|s| - 1]];
    }
  }

  // Trimming removes outer space and nothing else.
  lemma {:induction false} Trimmed(s: string) returns (a: nat, b: nat)
    ensures a <= b <= |s| && Trim(s) == s[a..b] && AllSpace(s[..a]) && AllSpace(s[b..])
    ensures Trim(Trim(s)) == Trim(s)
  {
    a := TrimStartExactly(s);
    var k := TrimEndExactly(s[a..]);
    b := a + k;
    assert s[a..b] == s[a..][..k] && s[b..] == s[a..][k..];
  }

  // ---------- searching ----------

  predicate StartsWith(s: string, prefix: string) {
    |prefix| <= |s| && s[..|prefix|] == prefix
  }

  lemma {:induction false} Shifted(s: string, i: nat, j: nat)
    requires s != "" && i <= j < |s|
    ensures s[1..][i..j] == s[i + 1..j + 1]
  {
  }

  // The first position at which the pattern stands.
  function Find(s: string, pat: string): (r: Option<nat>)
    ensures r.Some? ==> r.value + |pat| <= |s| && s[r.value..r.value + |pat|] == pat
  {
    if StartsWith(s, pat) then
      assert s[0..0 + |pat|] == s[..|pat|];
      Some(0)
    else if s == "" then None
    else
      match Find(s[1..], pat)
      case None => None
      case Some(i) =>
        Shifted(s, i, i + |pat|);
        Some(i + 1)
  }

  predicate Contains(s: string, pat: string) {
    Find(s, pat).Some?
  }

  predicate StandsAt(s: string, pat: string, i: int) {
    0 <= i && i + |pat| <= |s| && s[i..i + |pat|] == pat
  }

  lemma {:induction false} ContainsExactly(s: string, pat: string)
    ensures Contains(s, pat) <==> exists i :: StandsAt(s, pat, i)
  {
    if Contains(s, pat) {
      assert StandsAt(s, pat, Find(s, pat).value);
    } else {
      forall i ensures !StandsAt(s, pat, i) {
        if StandsAt(s, pat, i) {
          FindIsFirst(s, pat, i);
        }
      }
    }
  }

  lemma {:induction false} FindIsFirst(s: string, pat: string, i: nat)
    requires StandsAt(s, pat, i)
    ensures Find(s, pat).Some? && Find(s, pat).value <= i
    decreases i
  {
    if i > 0 && !StartsWith(s, pat) {
      assert s[1..][i - 1..i - 1 + |pat|] == s[i..i + |pat|];
      FindIsFirst(s[1..], pat, i - 1);
    }
  }

  lemma {:induction false} FindFirst(before: string, c: char, after: string)
    requires c !in before
    ensures Find(before + ([c] + after), [c]) == Some(|before|)
    decreases before
  {
    var s := before + ([c] + after);
    if before == "" {
      assert s[..1] == [c];
    } else {
      assert s[0] == before[0] && before[0] in before;
      assert s[..1] == [before[0]];
      assert s[1..] == before[1..] + ([c] + after);
      FindFirst(before[1..], c, after);
    }
  }

  function FindLast(s: string, c: char): (r: Option<nat>)
    ensures r.Some? ==> r.value < |s| && s[r.value] == c && c !in s[r.value + 1..]
    ensures r.None? ==> c !in s
  {
    if s == "" then None
    else if s[|s| - 1] == c then Some(|s| - 1)
    else
      assert s == s[..|s| - 1] + [s[|s| - 1]];
      FindLast(s[..|s| - 1], c)
  }

  // ---------- lines ----------

  function WithoutReturn(line: string): string {
    if line != "" && line[|line| - 1] == '\r' then line[..|line| - 1] else line
  }

  // A line ends with a line feed, or a carriage return and a line feed; the last one may go without.
  function Lines(s: string): seq<string>
    decreases |s|
  {
    if s == "" then []
    else
      match Find(s, "\n")
      case None => [s]
      case Some(i) => [WithoutReturn(s[..i])] + Lines(s[i + 1..])
  }

  lemma {:induction false} FirstLineRead(entry: string, rest: string)
    requires '\n' !in entry && WithoutReturn(entry) == entry
    ensures Lines(entry + ("\n" + rest)) == [entry] + Lines(rest)
  {
    var s := entry + ("\n" + rest);
    FindFirst(entry, '\n', rest);
    assert s[..|entry|] == entry && s[|entry| + 1..] == rest;
  }

  // ---------- decimal numerals ----------

  function Digit(n: nat): char
    requires n < 10
  {
    ('0' as int + n) as char
  }

  function DigitOf(c: char): nat
    requires IsDigit(c)
  {
    c as int - '0' as int
  }

  function Decimal(n: nat): (s: string)
    ensures s != ""
    ensures forall c | c in s :: IsDigit(c)
  {
    if n < 10 then [Digit(n)] else Decimal(n / 10) + [Digit(n % 10)]
  }

  function DigitsValue(s: string): nat
    requires forall c | c in s :: IsDigit(c)
  {
    if s == "" then 0
    else
      assert s[|s| - 1] in s;
      10 * DigitsValue(s[..|s| - 1]) + DigitOf(s[|s| - 1])
  }

  lemma {:induction false} DecimalRoundTrip(n: nat)
    ensures DigitsValue(Decimal(n)) == n
  {
    if n < 10 {
    } else {
      DecimalRoundTrip(n / 10);
      assert Decimal(n)[..|Decimal(n)| - 1] == Decimal(n / 10);
    }
  }

  // ---------- signed numerals ----------

  predicate AllDigits(s: string) {
    s != "" && forall c | c in s :: IsDigit(c)
  }

  // An optional sign and at least one digit; None for anything else.
  function ParseInt(s: string): Option<int> {
    if s != "" && s[0] == '-' then (if AllDigits(s[1..]) then Some(0 - DigitsValue(s[1..])) else None)
    else if s != "" && s[0] == '+' then (if AllDigits(s[1..]) then Some(DigitsValue(s[1..])) else None)
    else if AllDigits(s) then Some(DigitsValue(s))
    else None
  }

  // The same, refused when it does not fit a signed integer of this size.
  function ParseSigned(s: string, limit: nat): Option<int> {
    match ParseInt(s)
    case None => None
    case Some(n) => if 0 - limit <= n < limit then Some(n) else None
  }

  lemma {:induction false} DecimalParsed(n: nat)
    ensures ParseInt(Decimal(n)) == Some(n)
  {
    DecimalRoundTrip(n);
    assert Decimal(n)[0] in Decimal(n);
  }
}
