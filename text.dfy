/** The string and formatting primitives of the Go standard library that the
    engine relies on: case mapping (strings.ToUpper, strings.ToLower,
    strings.EqualFold), whitespace (strings.TrimSpace, strings.Fields),
    substring tests (strings.HasPrefix, strings.Contains) and decimal integers
    (fmt.Sprintf("%d") and fmt.Sscanf("%d")). A Go string is modelled as its
    sequence of runes. */
module Text {
  import opened Wrappers

  type String = seq<char>

  // ---------------------------------------------------------------------------
  // Characters

  /** unicode.IsSpace: the Latin-1 spaces and the Unicode White_Space characters. */
  predicate IsSpace(c: char) {
    || c == '\t' || c == '\n' || c == '\U{B}' || c == '\U{C}' || c == '\r' || c == ' '
    || c == '\U{85}' || c == '\U{A0}' || c == '\U{1680}'
    || ('\U{2000}' <= c <= '\U{200A}')
    || c == '\U{2028}' || c == '\U{2029}' || c == '\U{202F}' || c == '\U{205F}' || c == '\U{3000}'
  }

  predicate IsAsciiLower(c: char) { 'a' <= c <= 'z' }

  predicate IsAsciiUpper(c: char) { 'A' <= c <= 'Z' }

  predicate IsDigit(c: char) { '0' <= c <= '9' }

  /** unicode.ToUpper, exact for every rune whose upper-case partner is ASCII or Latin-1
      (including dotless i and long s, which upper-case to I and S); every other rune is
      returned as is. */
  function UpperChar(c: char): (u: char)
    ensures IsSpace(u) <==> IsSpace(c)
    ensures !IsAsciiLower(u)
    ensures IsAsciiLower(c) ==> u as int == c as int - 32
    ensures !IsAsciiLower(c) && c as int < 128 ==> u == c
  {
    if IsAsciiLower(c) || ('\U{E0}' <= c <= '\U{FE}' && c != '\U{F7}') then (c as int - 32) as char
    else if c == '\U{FF}' then '\U{178}'
    else if c == '\U{B5}' then '\U{39C}'
    else if c == '\U{131}' then 'I'
    else if c == '\U{17F}' then 'S'
    else c
  }

  /** unicode.ToLower, exact for every rune whose lower-case partner is ASCII or Latin-1
      (including the dotted capital I and the Kelvin sign, which lower-case to i and k);
      every other rune is returned as is. */
  function LowerChar(c: char): (l: char)
    ensures !IsAsciiUpper(l)
    ensures IsAsciiUpper(c) ==> l as int == c as int + 32
    ensures !IsAsciiUpper(c) && c as int < 128 ==> l == c
  {
    if IsAsciiUpper(c) || ('\U{C0}' <= c <= '\U{DE}' && c != '\U{D7}') then (c as int + 32) as char
    else if c == '\U{130}' then 'i'
    else if c == '\U{212A}' then 'k'
    else if c == '\U{178}' then '\U{FF}'
    else if c == '\U{212B}' then '\U{E5}'
    else if c == '\U{1E9E}' then '\U{DF}'
    else c
  }

  /** A representative of the rune's Unicode simple case-folding orbit, exact for every
      orbit that contains an ASCII or Latin-1 rune (so K, k and the Kelvin sign share one,
      while the dotted capital I and the dotless i are each alone in theirs). */
  function FoldChar(c: char): char {
    if c == '\U{130}' || c == '\U{131}' then c
    else if c == '\U{17F}' then 's'
    else if c == '\U{B5}' || c == '\U{39C}' then '\U{3BC}'
    else LowerChar(c)
  }

  // ---------------------------------------------------------------------------
  // Whole strings

  /** strings.ToUpper */
  function ToUpper(s: String): (u: String)
    ensures |u| == |s|
    ensures forall i :: 0 <= i < |s| ==> u[i] == UpperChar(s[i])
  {
    seq(|s|, i requires 0 <= i < |s| => UpperChar(s[i]))
  }

  /** strings.ToLower */
  function ToLower(s: String): (l: String)
    ensures |l| == |s|
    ensures forall i :: 0 <= i < |s| ==> l[i] == LowerChar(s[i])
  {
    seq(|s|, i requires 0 <= i < |s| => LowerChar(s[i]))
  }

  /** strings.EqualFold: equal under Unicode simple case folding, rune by rune. */
  predicate EqualFold(a: String, b: String) {
    |a| == |b| && forall i :: 0 <= i < |a| ==> FoldChar(a[i]) == FoldChar(b[i])
  }

  /** strings.HasPrefix */
  predicate HasPrefix(s: String, prefix: String) {
    |prefix| <= |s| && s[..|prefix|] == prefix
  }

  /** `sub` occurs in `s` starting at index `i`. */
  predicate OccursAt(s: String, sub: String, i: int) {
    0 <= i && i + |sub| <= |s| && s[i..i + |sub|] == sub
  }

  /** strings.Contains */
  predicate Contains(s: String, sub: String) {
    exists i :: 0 <= i <= |s| && OccursAt(s, sub, i)
  }

  /** strings.TrimLeftFunc(s, unicode.IsSpace) */
  function TrimLeft(s: String): (t: String)
    ensures |t| <= |s| && t == s[|s| - |t|..]
    ensures t == [] || !IsSpace(t[0])
    ensures forall i :: 0 <= i < |s| - |t| ==> IsSpace(s[i])
  {
    if s != [] && IsSpace(s[0]) then TrimLeft(s[1..]) else s
  }

  /** strings.TrimRightFunc(s, unicode.IsSpace) */
  function TrimRight(s: String): (t: String)
    ensures |t| <= |s| && t == s[..|t|]
    ensures t == [] || !IsSpace(t[|t| - 1])
    ensures forall i :: |t| <= i < |s| ==> IsSpace(s[i])
  {
    if s != [] && IsSpace(s[|s| - 1]) then TrimRight(s[..|s| - 1]) else s
  }

  /** strings.TrimSpace */
  function TrimSpace(s: String): (t: String)
    ensures t == [] || (!IsSpace(t[0]) && !IsSpace(t[|t| - 1]))
    ensures t == [] <==> forall i :: 0 <= i < |s| ==> IsSpace(s[i])
  {
    TrimRight(TrimLeft(s))
  }

  /** The length of the longest prefix of `s` without a space. */
  function FieldLength(s: String): (n: nat)
    ensures n <= |s|
    ensures forall i :: 0 <= i < n ==> !IsSpace(s[i])
    ensures n < |s| ==> IsSpace(s[n])
  {
    if s == [] || IsSpace(s[0]) then 0 else 1 + FieldLength(s[1..])
  }

  /** strings.Fields: the maximal runs of non-space runes, in order. */
  function Fields(s: String): (parts: seq<String>)
    ensures forall k :: 0 <= k < |parts| ==> parts[k] != []
    ensures parts == [] <==> forall i :: 0 <= i < |s| ==> IsSpace(s[i])
    decreases |s|
  {
    if s == [] then []
    else if IsSpace(s[0]) then
      var rest := Fields(s[1..]);
      assert forall i :: 1 <= i < |s| ==> s[i] == s[1..][i - 1];
      rest
    else
      [s[..FieldLength(s)]] + Fields(s[FieldLength(s)..])
  }

  // ---------------------------------------------------------------------------
  // Decimal integers

  const MinInt64: int := -0x8000_0000_0000_0000
  const MaxInt64: int := 0x7FFF_FFFF_FFFF_FFFF

  function DigitChar(d: int): (c: char)
    requires 0 <= d < 10
    ensures IsDigit(c) && c as int - '0' as int == d
  {
    ('0' as int + d) as char
  }

  /** fmt.Sprintf("%d", n) for n >= 0 */
  function NatToString(n: nat): (s: String)
    ensures s != [] && forall i :: 0 <= i < |s| ==> IsDigit(s[i])
  {
    if n < 10 then [DigitChar(n)] else NatToString(n / 10) + [DigitChar(n % 10)]
  }

  /** fmt.Sprintf("%d", n) */
  function IntToString(n: int): String {
    if n < 0 then "-" + NatToString(-n) else NatToString(n)
  }

  /** The value of a non-empty run of decimal digits. */
  function DigitsValue(s: String): nat
    requires forall i :: 0 <= i < |s| ==> IsDigit(s[i])
  {
    if s == [] then 0 else 10 * DigitsValue(s[..|s| - 1]) + DigitValue(s[|s| - 1])
  }

  function DigitValue(c: char): nat
    requires IsDigit(c)
  {
    c as int - '0' as int
  }

  /** The length of the longest prefix of `s` made of the runes the `%d` verb accepts as
      digits ("0123456789"). */
  function DigitRun(s: String): (n: nat)
    ensures n <= |s|
    ensures forall i :: 0 <= i < n ==> IsDigit(s[i])
    ensures n < |s| ==> !IsDigit(s[n])
  {
    if s != [] && IsDigit(s[0]) then 1 + DigitRun(s[1..]) else 0
  }

  /** fmt.Sscanf(s, "%d", &v) after leading spaces are skipped: an optional sign, then the
      longest run of decimal digits, parsed by strconv.ParseInt in base 10 and 64 bits; what
      follows the digits is left unread. None when fmt reports an error (no digits, or a
      value out of range). */
  function ScanSigned(s: String): Option<int>
    requires s != []
  {
    var body := if s[0] == '+' || s[0] == '-' then s[1..] else s;
    var token := body[..DigitRun(body)];
    if token == [] then None
    else
      var magnitude := DigitsValue(token);
      var v: int := if s[0] == '-' then -(magnitude as int) else magnitude;
      if MinInt64 <= v <= MaxInt64 then Some(v) else None
  }

  /** fmt.Sscanf(s, "%d", &v): spaces before the number are skipped, but a newline there
      is an error. None when the scan fails, in which case `v` keeps its old value. */
  function ScanInt(s: String): Option<int> {
    if s == [] || s[0] == '\n' then None
    else if IsSpace(s[0]) then ScanInt(s[1..])
    else ScanSigned(s)
  }

  // ---------------------------------------------------------------------------
  // Lemmas

  /** Reading back the decimal text of a natural number gives the number. */
  lemma {:induction false} DigitsValueOfNatToString(n: nat)
    ensures DigitsValue(NatToString(n)) == n
  {
    var s := NatToString(n);
    if n >= 10 {
      DigitsValueOfNatToString(n / 10);
      assert s[..|s| - 1] == NatToString(n / 10);
    }
  }

  lemma {:induction false} DigitRunOfDigits(s: String)
    requires forall i :: 0 <= i < |s| ==> IsDigit(s[i])
    ensures DigitRun(s) == |s|
  {
    if s != [] {
      DigitRunOfDigits(s[1..]);
    }
  }

  /** fmt.Sscanf("%d") reads back what fmt.Sprintf("%d") wrote, for every 64-bit int. */
  lemma ScanIntOfIntToString(n: int)
    requires MinInt64 <= n <= MaxInt64
    ensures ScanInt(IntToString(n)) == Some(n)
  {
    var m: nat := if n < 0 then -n else n;
    var digits := NatToString(m);
    DigitRunOfDigits(digits);
    DigitsValueOfNatToString(m);
    assert digits[..DigitRun(digits)] == digits;
    if n < 0 {
      var s := "-" + digits;
      assert s[0] == '-' && s[1..] == digits;
      assert ScanSigned(s) == Some(n);
    } else {
      assert IsDigit(digits[0]);
      assert ScanSigned(digits) == Some(n);
    }
  }

  lemma UpperOfConcat(a: String, b: String)
    ensures ToUpper(a + b) == ToUpper(a) + ToUpper(b)
  {
  }

  /** An uppercased string contains no ASCII lower-case letter, so it never contains a
      string that has one. */
  lemma UpperLacksLowerCase(s: String, sub: String, k: nat)
    requires k < |sub| && IsAsciiLower(sub[k])
    ensures !Contains(ToUpper(s), sub)
  {
  }

  /** A string lacking one of the runes of `sub` does not contain `sub`. */
  lemma LacksRune(s: String, sub: String, k: nat)
    requires k < |sub| && sub[k] !in s
    ensures !Contains(s, sub)
  {
  }

  /** Contains is preserved when text is added on either side. */
  lemma ContainsInContext(x: String, s: String, y: String, sub: String)
    requires Contains(s, sub)
    ensures Contains(x + s + y, sub)
  {
    var i :| 0 <= i <= |s| && OccursAt(s, sub, i);
    var t := x + s + y;
    assert t[|x| + i..|x| + i + |sub|] == s[i..i + |sub|];
    assert OccursAt(t, sub, |x| + i);
  }
}
