/** Character and string helpers standing in for the JavaScript string built-ins
    the source uses: ASCII lower-casing, `trim`, `slice(0, n)`, `startsWith`,
    `padStart` and decimal `toString`. */
module Text {

  predicate IsDigit(c: char) { '0' <= c <= '9' }
  predicate IsLowerAlpha(c: char) { 'a' <= c <= 'z' }
  predicate IsUpperAlpha(c: char) { 'A' <= c <= 'Z' }

  /** The characters kept by a slug: `[a-z0-9]`. */
  predicate IsLowerAlnum(c: char) { IsLowerAlpha(c) || IsDigit(c) }

  /** `toLowerCase` restricted to ASCII: upper-case letters move down by 32,
      every other character is left alone. */
  function ToLowerAscii(c: char): (r: char)
    ensures IsUpperAlpha(c) ==> IsLowerAlpha(r) && r as int == c as int + 32
    ensures !IsUpperAlpha(c) ==> r == c
  {
    if IsUpperAlpha(c) then (c as int + 32) as char else c
  }

  function LowerAscii(s: string): (r: string)
    ensures |r| == |s|
    ensures forall i :: 0 <= i < |s| ==> r[i] == ToLowerAscii(s[i])
  {
    seq(|s|, i requires 0 <= i < |s| => ToLowerAscii(s[i]))
  }

  /** The white space `String.prototype.trim` removes: the ASCII white space and
      line terminators plus no-break space, byte-order mark and the two Unicode
      line/paragraph separators. */
  predicate IsJsSpace(c: char) {
    c == ' ' || c == '\t' || c == '\n' || c == '\r' || c == '\U{000B}' || c == '\U{000C}'
    || c == '\U{00A0}' || c == '\U{FEFF}' || c == '\U{2028}' || c == '\U{2029}'
  }

  predicate AllSpace(s: string) {
    forall i :: 0 <= i < |s| ==> IsJsSpace(s[i])
  }

  /** Drops leading white space: the result is a suffix of `s`, everything
      dropped is white space, and the result does not start with white space. */
  function TrimStart(s: string): (r: string)
    ensures |r| <= |s| && r == s[|s| - |r|..]
    ensures AllSpace(s[..|s| - |r|])
    ensures |r| > 0 ==> !IsJsSpace(r[0])
    decreases |s|
  {
    if |s| > 0 && IsJsSpace(s[0]) then
      var r := TrimStart(s[1..]);
      assert s[1..][|s[1..]| - |r|..] == s[|s| - |r|..];
      AllSpaceCons(s[0], s[1..][..|s[1..]| - |r|]);
      assert [s[0]] + s[1..][..|s[1..]| - |r|] == s[..|s| - |r|];
      r
    else
      assert s[..|s| - |s|] == [];
      s
  }

  /** Drops trailing white space: the result is a prefix of `s`, everything
      dropped is white space, and the result does not end with white space. */
  function TrimEnd(s: string): (r: string)
    ensures |r| <= |s| && r == s[..|r|]
    ensures AllSpace(s[|r|..])
    ensures |r| > 0 ==> !IsJsSpace(r[|r| - 1])
    decreases |s|
  {
    if |s| > 0 && IsJsSpace(s[|s| - 1]) then
      var t := s[..|s| - 1];
      var r := TrimEnd(t);
      assert t[..|r|] == s[..|r|];
      AllSpaceSnoc(t[|r|..], s[|s| - 1]);
      assert t[|r|..] + [s[|s| - 1]] == s[|r|..];
      r
    else
      assert s[|s|..] == [];
      s
  }

  lemma AllSpaceCons(c: char, s: string)
    requires IsJsSpace(c) && AllSpace(s)
    ensures AllSpace([c] + s)
  {
    forall i | 0 <= i < |[c] + s| ensures IsJsSpace(([c] + s)[i]) {
      if i > 0 {
        assert ([c] + s)[i] == s[i - 1];
      }
    }
  }

  lemma AllSpaceSnoc(s: string, c: char)
    requires AllSpace(s) && IsJsSpace(c)
    ensures AllSpace(s + [c])
  {
    forall i | 0 <= i < |s + [c]| ensures IsJsSpace((s + [c])[i]) {
      if i < |s| {
        assert (s + [c])[i] == s[i];
      }
    }
  }

  /** `s.trim()`. */
  function Trim(s: string): string {
    TrimEnd(TrimStart(s))
  }

  /** Trimming yields the empty string exactly when every character is white space. */
  lemma TrimEmptyIffAllSpace(s: string)
    ensures |Trim(s)| == 0 <==> AllSpace(s)
  {
    var a := TrimStart(s);
    var t := TrimEnd(a);
    assert |t| == 0 ==> a[|t|..] == a;
    assert |a| == 0 ==> s[..|s| - |a|] == s;
    assert |a| > 0 ==> a[0] == s[|s| - |a|];
  }

  /** The trimmed string is a contiguous piece of the original with no white
      space at either end. */
  lemma TrimIsInfix(s: string)
    ensures exists a, b :: 0 <= a <= b <= |s| && Trim(s) == s[a..b]
    ensures |Trim(s)| > 0 ==> !IsJsSpace(Trim(s)[0]) && !IsJsSpace(Trim(s)[|Trim(s)| - 1])
  {
    var a := TrimStart(s);
    var t := TrimEnd(a);
    var lo := |s| - |a|;
    assert t == a[..|t|];
    assert t == s[lo..lo + |t|];
    if |t| > 0 {
      assert t[0] == a[0];
    }
  }

  /** `s.slice(0, n)` for `n >= 0`. */
  function Take(s: string, n: nat): (r: string)
    ensures |r| == if |s| <= n then |s| else n
    ensures r == s[..|r|]
  {
    if |s| <= n then s else s[..n]
  }

  predicate StartsWith(s: string, prefix: string) {
    |prefix| <= |s| && s[..|prefix|] == prefix
  }

  predicate Contains(s: string, c: char) {
    exists i :: 0 <= i < |s| && s[i] == c
  }

  function Repeat(c: char, n: nat): (r: string)
    ensures |r| == n
    ensures forall i :: 0 <= i < n ==> r[i] == c
  {
    seq(n, _ => c)
  }

  /** `s.padStart(len, c)` with a one-character pad: never truncates, and
      keeps `s` as the suffix of the result. */
  function PadStart(s: string, len: nat, c: char): (r: string)
    ensures |r| == if |s| >= len then |s| else len
    ensures r[|r| - |s|..] == s
    ensures forall i :: 0 <= i < |r| - |s| ==> r[i] == c
  {
    if |s| >= len then s else Repeat(c, len - |s|) + s
  }

  function DigitChar(d: nat): (c: char)
    requires d < 10
    ensures IsDigit(c)
  {
    ('0' as int + d) as char
  }

  function DigitValue(c: char): (d: nat)
    requires IsDigit(c)
    ensures d < 10
  {
    c as int - '0' as int
  }

  predicate AllDigits(s: string) {
    forall i :: 0 <= i < |s| ==> IsDigit(s[i])
  }

  /** `n.toString()` for a non-negative integer: decimal digits, no leading zero. */
  function NatToString(n: nat): (r: string)
    ensures |r| >= 1
    ensures AllDigits(r)
    ensures |r| > 1 ==> r[0] != '0'
    decreases n
  {
    if n < 10 then [DigitChar(n)] else NatToString(n / 10) + [DigitChar(n % 10)]
  }

  /** The value of a string of decimal digits (leading zeros allowed). */
  function ParseDigits(s: string): nat
    requires AllDigits(s)
    decreases |s|
  {
    if |s| == 0 then 0 else ParseDigits(s[..|s| - 1]) * 10 + DigitValue(s[|s| - 1])
  }

  function Pow10(k: nat): (r: nat)
    ensures r >= 1
  {
    if k == 0 then 1 else 10 * Pow10(k - 1)
  }

  /** Reading the decimal rendering of `n` gives `n` back. */
  lemma {:induction false} ParseNatToString(n: nat)
    ensures ParseDigits(NatToString(n)) == n
    decreases n
  {
    var s := NatToString(n);
    if n >= 10 {
      ParseNatToString(n / 10);
      assert s[..|s| - 1] == NatToString(n / 10);
    }
  }

  /** Digits parse positionally: the left part is shifted by the length of the right part. */
  lemma {:induction false} ParseDigitsAppend(a: string, b: string)
    requires AllDigits(a) && AllDigits(b)
    ensures AllDigits(a + b)
    ensures ParseDigits(a + b) == ParseDigits(a) * Pow10(|b|) + ParseDigits(b)
    decreases |b|
  {
    AllDigitsAppend(a, b);
    if |b| > 0 {
      var b' := b[..|b| - 1];
      var c := b[|b| - 1];
      assert (a + b)[..|a + b| - 1] == a + b';
      assert (a + b)[|a + b| - 1] == c;
      ParseDigitsAppend(a, b');
      assert ParseDigits(a + b) == ParseDigits(a + b') * 10 + DigitValue(c);
      assert ParseDigits(b) == ParseDigits(b') * 10 + DigitValue(c);
      ShiftStep(ParseDigits(a), Pow10(|b'|), ParseDigits(b'), DigitValue(c));
    } else {
      assert a + b == a;
    }
  }

  lemma AllDigitsAppend(a: string, b: string)
    requires AllDigits(a) && AllDigits(b)
    ensures AllDigits(a + b)
  {
    forall i | 0 <= i < |a + b| ensures IsDigit((a + b)[i]) {
      if i < |a| { assert (a + b)[i] == a[i]; } else { assert (a + b)[i] == b[i - |a|]; }
    }
  }

  /** One more digit on the right: `(x * p + y) * 10 + d` regrouped. */
  lemma ShiftStep(x: int, p: int, y: int, d: int)
    ensures (x * p + y) * 10 + d == x * (10 * p) + (y * 10 + d)
  {
  }

  /** Zero padding on the left does not change the value. */
  lemma ZeroPadKeepsValue(s: string, len: nat)
    requires AllDigits(s)
    ensures AllDigits(PadStart(s, len, '0'))
    ensures ParseDigits(PadStart(s, len, '0')) == ParseDigits(s)
  {
    if |s| < len {
      var z := Repeat('0', len - |s|);
      ZerosParseToZero(len - |s|);
      ParseDigitsAppend(z, s);
    }
  }

  lemma {:induction false} ZerosParseToZero(k: nat)
    ensures AllDigits(Repeat('0', k))
    ensures ParseDigits(Repeat('0', k)) == 0
  {
    if k > 0 {
      assert Repeat('0', k)[..k - 1] == Repeat('0', k - 1);
      ZerosParseToZero(k - 1);
    }
  }
}
