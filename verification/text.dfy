/** Text handling shared by both audio backends: `std::to_string` of an
    unsigned value, `std::stoul` in base 10, `wcsrchr`, and the first-match
    search both backends' loops perform, all on plain character sequences.
 */
module Text {
  import opened Wrappers

  /** The two exceptions `std::stoul` throws */
  datatype StoulError = InvalidArgument | OutOfRange

  predicate IsDigit(c: char) {
    '0' <= c <= '9'
  }

  /** The characters `isspace` accepts in the "C" locale */
  predicate IsSpace(c: char) {
    c == ' ' || c == '\t' || c == '\n' || c == '\U{B}' || c == '\U{C}' || c == '\r'
  }

  predicate AllDigits(s: string) {
    forall i :: 0 <= i < |s| ==> IsDigit(s[i])
  }

  /** A non-empty run of decimal digits and nothing else */
  predicate IsDecimal(s: string) {
    |s| > 0 && AllDigits(s)
  }

  function DigitValue(c: char): nat
    requires IsDigit(c)
  {
    c as int - '0' as int
  }

  function DigitChar(d: nat): (c: char)
    requires d < 10
    ensures IsDigit(c) && DigitValue(c) == d
  {
    ('0' as int + d) as char
  }

  /** The value of a digit string, most significant digit first */
  function DigitsValue(s: string): nat
    requires AllDigits(s)
  {
    if |s| == 0 then 0 else DigitsValue(s[..|s| - 1]) * 10 + DigitValue(s[|s| - 1])
  }

  /** `std::to_string` of an unsigned value: its shortest decimal text,
      without sign or leading zero */
  function ToDecimal(n: nat): (s: string)
    ensures IsDecimal(s)
    ensures s[0] == '0' ==> n == 0
    decreases n
  {
    if n < 10 then [DigitChar(n)] else ToDecimal(n / 10) + [DigitChar(n % 10)]
  }

  lemma {:induction false} DecimalRoundTrip(n: nat)
    ensures DigitsValue(ToDecimal(n)) == n
    decreases n
  {
    var s := ToDecimal(n);
    if n < 10 {
      assert s[..|s| - 1] == [];
    } else {
      assert s[..|s| - 1] == ToDecimal(n / 10);
      DecimalRoundTrip(n / 10);
    }
  }

  /** Length of the longest prefix of `s` whose characters all satisfy `p` */
  function Span(s: string, p: char -> bool): (k: nat)
    ensures k <= |s|
    ensures forall i :: 0 <= i < k ==> p(s[i])
    ensures k < |s| ==> !p(s[k])
  {
    if |s| > 0 && p(s[0]) then
      var k := 1 + Span(s[1..], p);
      assert forall i :: 1 <= i < k ==> s[i] == s[1..][i - 1];
      k
    else 0
  }

  /** What `strtoul` reads after the leading white space: the sign, if any,
      and the text after it */
  function Numeral(s: string): (n: (bool, string))
    ensures |n.1| <= |s|
  {
    var rest := s[Span(s, IsSpace)..];
    if |rest| > 0 && (rest[0] == '+' || rest[0] == '-') then (rest[0] == '-', rest[1..])
    else (false, rest)
  }

  /** `std::stoul(s)` in base 10 for an `unsigned long` that holds `modulus`
      values (2^32 under MSVC, 2^64 on LP64 Linux). White space is skipped,
      one sign is accepted, the longest run of digits after it is read and
      anything following is ignored. A magnitude that does not fit throws
      `out_of_range`; a minus sign negates modulo `modulus`, as `strtoul`
      does; no digit at all throws `invalid_argument`. */
  function Stoul(s: string, modulus: nat): (r: Result<nat, StoulError>)
    requires modulus > 0
    ensures r.Ok? ==> r.value < modulus
    ensures r.Err? && r.error == InvalidArgument <==> Span(Numeral(s).1, IsDigit) == 0
  {
    var (negative, body) := Numeral(s);
    var k := Span(body, IsDigit);
    if k == 0 then Err(InvalidArgument)
    else
      var magnitude := DigitsValue(body[..k]);
      if magnitude >= modulus then Err(OutOfRange)
      else if negative then Ok((modulus - magnitude) % modulus)
      else Ok(magnitude)
  }

  /** A pure decimal string whose value fits is read back exactly */
  lemma StoulOfDecimal(s: string, modulus: nat)
    requires modulus > 0 && IsDecimal(s) && DigitsValue(s) < modulus
    ensures Stoul(s, modulus) == Ok(DigitsValue(s))
  {
    assert !IsSpace(s[0]) && s[0] != '+' && s[0] != '-';
    assert Span(s, IsSpace) == 0;
    assert Numeral(s) == (false, s);
    assert s[..Span(s, IsDigit)] == s;
  }

  /** `std::stoul` inverts `std::to_string` on every value it can hold */
  lemma StoulOfToDecimal(n: nat, modulus: nat)
    requires n < modulus
    ensures Stoul(ToDecimal(n), modulus) == Ok(n)
  {
    DecimalRoundTrip(n);
    StoulOfDecimal(ToDecimal(n), modulus);
  }

  /** Text that starts with neither white space, a sign nor a digit throws
      `invalid_argument` */
  lemma StoulRejectsWord(s: string, modulus: nat)
    requires modulus > 0 && |s| > 0
    requires !IsSpace(s[0]) && !IsDigit(s[0]) && s[0] != '+' && s[0] != '-'
    ensures Stoul(s, modulus) == Err(InvalidArgument)
  {
    assert Span(s, IsSpace) == 0;
    assert Numeral(s) == (false, s);
  }

  /** `wcsrchr`: the position of the last occurrence of `c` in `s` */
  function LastIndexOf(s: string, c: char): (r: Option<nat>)
    ensures r.None? <==> c !in s
    ensures r.Some? ==> r.value < |s| && s[r.value] == c && c !in s[r.value + 1..]
  {
    if |s| == 0 then None
    else if s[|s| - 1] == c then Some(|s| - 1)
    else
      var r := LastIndexOf(s[..|s| - 1], c);
      assert s == s[..|s| - 1] + [s[|s| - 1]];
      if r.Some? then
        assert s[r.value + 1..] == s[..|s| - 1][r.value + 1..] + [s[|s| - 1]];
        r
      else r
  }

  /** The last occurrence of `c` is the one with no `c` after it */
  lemma LastIndexOfSplit(a: string, c: char, b: string)
    requires c !in b
    ensures LastIndexOf(a + [c] + b, c) == Some(|a|)
  {
    var s := a + [c] + b;
    assert s[|a|] == c;
    assert s[|a| + 1..] == b;
  }

  /** Index of the first element satisfying `p`: where a loop over `xs`
      that stops at its first hit stops */
  function FirstMatch<T>(xs: seq<T>, p: T -> bool): (r: Option<nat>)
    ensures r.Some? ==> r.value < |xs| && p(xs[r.value])
    ensures r.Some? ==> forall i :: 0 <= i < r.value ==> !p(xs[i])
    ensures r.None? ==> forall i :: 0 <= i < |xs| ==> !p(xs[i])
  {
    if |xs| == 0 then None
    else if p(xs[0]) then Some(0)
    else
      match FirstMatch(xs[1..], p)
      case None =>
        assert forall i :: 1 <= i < |xs| ==> xs[i] == xs[1..][i - 1];
        None
      case Some(i) =>
        assert forall j :: 1 <= j < i + 1 ==> xs[j] == xs[1..][j - 1];
        Some(i + 1)
  }
}
