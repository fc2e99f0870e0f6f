/**
 * String primitives shared by the engine and its modules: ASCII lower-casing
 * (the C library's `tolower` in the "C" locale), `std::string::find`,
 * trimming of spaces, and decimal printing/parsing of integers.
 *
 * Strings are sequences of Unicode scalar values. The source works on UTF-8
 * bytes; since `tolower` leaves every byte >= 0x80 untouched and UTF-8 is
 * self-synchronising, lower-casing and substring search give the same answers
 * on code points as on bytes.
 */
module Text {

  datatype Option<T> = None | Some(value: T)

  function Min(a: int, b: int): int { if a <= b then a else b }
  function Max(a: int, b: int): int { if a >= b then a else b }

  // ---------------------------------------------------------------------
  // Lower-casing
  // ---------------------------------------------------------------------

  predicate IsAsciiUpper(c: char) { 'A' <= c <= 'Z' }

  /** `::tolower` in the "C" locale: only 'A'..'Z' change. */
  function LowerChar(c: char): (r: char)
    ensures IsAsciiUpper(c) ==> r as int == c as int + 32
    ensures !IsAsciiUpper(c) ==> r == c
    ensures !IsAsciiUpper(r)
  {
    if IsAsciiUpper(c) then (c as int + 32) as char else c
  }

  /** `std::transform(s.begin(), s.end(), s.begin(), ::tolower)` */
  function Lower(s: string): (r: string)
    ensures |r| == |s|
    ensures forall i :: 0 <= i < |s| ==> r[i] == LowerChar(s[i])
  {
    seq(|s|, i requires 0 <= i < |s| => LowerChar(s[i]))
  }

  lemma LowerIdempotent(s: string)
    ensures Lower(Lower(s)) == Lower(s)
  {
  }

  lemma LowerSlice(s: string, a: nat, b: nat)
    requires a <= b <= |s|
    ensures Lower(s)[a..b] == Lower(s[a..b])
  {
  }

  // ---------------------------------------------------------------------
  // Substring search (std::string::find)
  // ---------------------------------------------------------------------

  /** `k` occurs in `s` starting at index `i`. */
  predicate IsAt(s: string, k: string, i: nat) {
    i + |k| <= |s| && s[i..i + |k|] == k
  }

  /** `s.find(k, i)`: the first occurrence of `k` at or after `i`. */
  function IndexOfFrom(s: string, k: string, i: nat): (r: Option<nat>)
    requires i <= |s|
    decreases |s| - i
    ensures r.Some? ==> i <= r.value && IsAt(s, k, r.value)
    ensures r.Some? ==> forall j :: i <= j < r.value ==> !IsAt(s, k, j)
    ensures r.None? ==> forall j :: i <= j ==> !IsAt(s, k, j)
  {
    if IsAt(s, k, i) then Some(i)
    else if i == |s| then None
    else IndexOfFrom(s, k, i + 1)
  }

  /** `s.find(k)`, with `None` for `npos`. */
  function IndexOf(s: string, k: string): (r: Option<nat>)
    ensures r.Some? ==> IsAt(s, k, r.value) && forall j: nat :: j < r.value ==> !IsAt(s, k, j)
    ensures r.None? ==> forall j: nat :: !IsAt(s, k, j)
  {
    IndexOfFrom(s, k, 0)
  }

  /** `s.find(k) != std::string::npos` */
  predicate Contains(s: string, k: string) {
    IndexOf(s, k).Some?
  }

  lemma ContainsIff(s: string, k: string)
    ensures Contains(s, k) <==> exists i :: IsAt(s, k, i)
  {
    if !Contains(s, k) {
      forall i ensures !IsAt(s, k, i) { }
    }
  }

  lemma ContainsAt(s: string, k: string, i: nat)
    requires IsAt(s, k, i)
    ensures Contains(s, k)
  {
    ContainsIff(s, k);
  }

  /** A keyword that has a character absent from `s` does not occur in `s`. */
  lemma MissingCharNotContained(s: string, k: string, c: char)
    requires c in k && c !in s
    ensures !Contains(s, k)
  {
  }

  lemma ContainsSelf(s: string)
    ensures Contains(s, s)
  {
    ContainsAt(s, s, 0);
  }

  /** Position of the first `c` in `s` (`s.find(c)`). */
  function IndexOfChar(s: string, c: char): (r: Option<nat>)
    ensures r.Some? ==> r.value < |s| && s[r.value] == c && c !in s[..r.value]
    ensures r.None? ==> c !in s
  {
    var r := IndexOf(s, [c]);
    if r.Some? then
      assert s[r.value..r.value + 1] == [c];
      assert forall j :: 0 <= j < r.value ==> s[j] != c by {
        forall j | 0 <= j < r.value ensures s[j] != c {
          assert !IsAt(s, [c], j);
          assert s[j..j + 1] == [s[j]];
        }
      }
      r
    else
      assert forall j :: 0 <= j < |s| ==> s[j] != c by {
        forall j | 0 <= j < |s| ensures s[j] != c {
          assert !IsAt(s, [c], j);
          assert s[j..j + 1] == [s[j]];
        }
      }
      r
  }

  /** The first position holding `c` is the one `IndexOfChar` reports. */
  lemma IndexOfCharAt(s: string, c: char, p: nat)
    requires p < |s| && s[p] == c && c !in s[..p]
    ensures IndexOfChar(s, c) == Some(p)
  {
    assert s[..p + 1][p] == c;
  }

  // ---------------------------------------------------------------------
  // Trimming of spaces: erase(0, find_first_not_of(" ")) followed by
  // erase(find_last_not_of(" ") + 1). Only ' ' is trimmed.
  // ---------------------------------------------------------------------

  predicate AllSpaces(s: string) {
    forall i :: 0 <= i < |s| ==> s[i] == ' '
  }

  function TrimLeft(s: string): (r: string)
    ensures |r| <= |s| && r == s[|s| - |r|..]
    ensures AllSpaces(s[..|s| - |r|])
    ensures r == [] || r[0] != ' '
  {
    if s == [] || s[0] != ' ' then s else TrimLeft(s[1..])
  }

  function TrimRight(s: string): (r: string)
    ensures |r| <= |s| && r == s[..|r|]
    ensures AllSpaces(s[|r|..])
    ensures r == [] || r[|r| - 1] != ' '
  {
    if s == [] || s[|s| - 1] != ' ' then s else TrimRight(s[..|s| - 1])
  }

  /** The source's two-step `erase` on both ends. */
  function Trim(s: string): string {
    TrimRight(TrimLeft(s))
  }

  /** `Trim(s)` is the infix of `s` left after removing the leading and
      trailing runs of spaces, and has no space at either end. */
  lemma TrimSpec(s: string)
    ensures var r := Trim(s);
      exists i, j :: 0 <= i <= j <= |s| && r == s[i..j] && AllSpaces(s[..i]) && AllSpaces(s[j..])
    ensures Trim(s) == [] || (Trim(s)[0] != ' ' && Trim(s)[|Trim(s)| - 1] != ' ')
  {
    var l := TrimLeft(s);
    var i := |s| - |l|;
    assert l == s[i..] && AllSpaces(s[..i]);
    var r := TrimRight(l);
    assert r == Trim(s);
    assert r == l[..|r|] && AllSpaces(l[|r|..]);
    var j := i + |r|;
    assert r == s[i..j];
    assert l[|r|..] == s[j..];
    assert 0 <= i <= j <= |s| && r == s[i..j] && AllSpaces(s[..i]) && AllSpaces(s[j..]);
  }

  lemma TrimAllSpaces(s: string)
    requires AllSpaces(s)
    ensures Trim(s) == []
  {
  }

  lemma TrimIdentity(s: string)
    requires s == [] || (s[0] != ' ' && s[|s| - 1] != ' ')
    ensures Trim(s) == s
  {
  }

  lemma TrimIdempotent(s: string)
    ensures Trim(Trim(s)) == Trim(s)
  {
    TrimSpec(s);
    TrimIdentity(Trim(s));
  }

  // ---------------------------------------------------------------------
  // Decimal digits: std::to_string on non-negative values, and the leading
  // digit run that std::stoi consumes.
  // ---------------------------------------------------------------------

  /** INT_MAX of a 32-bit int; std::stoi throws beyond it. */
  const IntMax: nat := 0x7FFF_FFFF

  predicate IsDigit(c: char) { '0' <= c <= '9' }

  function DigitChar(d: nat): (c: char)
    requires d < 10
    ensures IsDigit(c)
  {
    ('0' as int + d) as char
  }

  function DigitValue(c: char): (d: nat)
    requires IsDigit(c)
    ensures d < 10 && DigitChar(d) == c
  {
    c as int - '0' as int
  }

  /** std::to_string(n) for n >= 0. */
  function NatToDecimal(n: nat): (r: string)
    ensures |r| >= 1 && forall i :: 0 <= i < |r| ==> IsDigit(r[i])
    ensures (n < 10) == (|r| == 1)
  {
    if n < 10 then [DigitChar(n)] else NatToDecimal(n / 10) + [DigitChar(n % 10)]
  }

  /** Value of a run of decimal digits, most significant first. */
  function DigitsValue(s: string): nat
    requires forall i :: 0 <= i < |s| ==> IsDigit(s[i])
  {
    if s == [] then 0 else DigitsValue(s[..|s| - 1]) * 10 + DigitValue(s[|s| - 1])
  }

  /** The longest prefix of `s` made of digits. */
  function LeadingDigits(s: string): (r: string)
    ensures |r| <= |s| && r == s[..|r|]
    ensures forall i :: 0 <= i < |r| ==> IsDigit(r[i])
    ensures |r| < |s| ==> !IsDigit(s[|r|])
  {
    if s == [] || !IsDigit(s[0]) then [] else [s[0]] + LeadingDigits(s[1..])
  }

  lemma {:induction false} DecimalRoundTrip(n: nat)
    ensures DigitsValue(NatToDecimal(n)) == n
  {
    if n >= 10 {
      var r := NatToDecimal(n);
      assert r[..|r| - 1] == NatToDecimal(n / 10);
      DecimalRoundTrip(n / 10);
    }
  }

  lemma AllDigitsLeading(s: string)
    requires forall i :: 0 <= i < |s| ==> IsDigit(s[i])
    ensures LeadingDigits(s) == s
  {
  }

  /** Distinct numbers print differently. */
  lemma NatToDecimalInjective(a: nat, b: nat)
    requires NatToDecimal(a) == NatToDecimal(b)
    ensures a == b
  {
    DecimalRoundTrip(a);
    DecimalRoundTrip(b);
  }
}
