/**
  The "major.minor" text `get_smbios_version` writes through a string stream, and
  the reading of such a text back into its two numbers.
 */
module VersionString {
  import opened Wrappers

  predicate IsDigit(c: char)
  {
    '0' <= c <= '9'
  }

  predicate AllDigits(s: string)
  {
    forall i :: 0 <= i < |s| ==> IsDigit(s[i])
  }

  function DigitChar(d: nat): (c: char)
    requires d < 10
    ensures IsDigit(c)
  {
    ('0' as int + d) as char
  }

  function DigitValue(c: char): (d: nat)
    requires IsDigit(c)
    ensures d < 10
  {
    c as int - '0' as int
  }

  /// A number in decimal, most significant digit first and without leading zeros, as a
  /// stream writes a `size_t`.
  function Decimal(n: nat): (s: string)
    decreases n
    ensures 1 <= |s| && AllDigits(s)
    ensures |s| > 1 ==> s[0] != '0'
  {
    if n < 10 then [DigitChar(n)] else Decimal(n / 10) + [DigitChar(n % 10)]
  }

  /// The number a string of decimal digits denotes.
  function DecimalValue(s: string): nat
    requires AllDigits(s)
  {
    if s == [] then 0 else 10 * DecimalValue(s[..|s| - 1]) + DigitValue(s[|s| - 1])
  }

  /// Reading a number's decimal text gives the number back.
  lemma {:induction false} DecimalRoundTrip(n: nat)
    decreases n
    ensures DecimalValue(Decimal(n)) == n
  {
    var s := Decimal(n);
    if n >= 10 {
      DecimalRoundTrip(n / 10);
      assert s[..|s| - 1] == Decimal(n / 10);
    }
  }

  /// The text the version is reported as: major number, a dot, minor number.
  function FormatVersion(major: nat, minor: nat): string
  {
    Decimal(major) + "." + Decimal(minor)
  }

  /// Position of the first `c` in `s`, if any.
  function FirstIndex(s: string, c: char): (r: Option<nat>)
    ensures r.Some? ==> r.value < |s| && s[r.value] == c && forall i :: 0 <= i < r.value ==> s[i] != c
    ensures r.None? ==> forall i :: 0 <= i < |s| ==> s[i] != c
  {
    if s == [] then None
    else if s[0] == c then Some(0)
    else match FirstIndex(s[1..], c)
      case None => None
      case Some(i) => Some(i + 1)
  }

  /// Reads a "major.minor" text: two non-empty digit strings around the first dot.
  function ParseVersion(s: string): Option<(nat, nat)>
  {
    match FirstIndex(s, '.')
    case None => None
    case Some(i) =>
      var major, minor := s[..i], s[i + 1..];
      if major != [] && minor != [] && AllDigits(major) && AllDigits(minor)
      then Some((DecimalValue(major), DecimalValue(minor)))
      else None
  }

  /// A reported version reads back as the pair it was written from, so two different
  /// pairs are never reported as the same text.
  lemma FormatThenParse(major: nat, minor: nat)
    ensures ParseVersion(FormatVersion(major, minor)) == Some((major, minor))
  {
    var a, b := Decimal(major), Decimal(minor);
    var s := FormatVersion(major, minor);
    assert s[|a|] == '.';
    assert forall i :: 0 <= i < |a| ==> s[i] == a[i] && s[i] != '.';
    assert FirstIndex(s, '.') == Some(|a|);
    assert s[..|a|] == a;
    assert s[|a| + 1..] == b;
    DecimalRoundTrip(major);
    DecimalRoundTrip(minor);
  }
}
