/** Comparing and cutting texts, and ids as hexadecimal digits: src/helpers.c and strcasecmp. */
module Texts {
  import opened Options

  // ----- strcasecmp

  const UPPER := "ABCDEFGHIJKLMNOPQRSTUVWXYZ"
  const LOWER := "abcdefghijklmnopqrstuvwxyz"

  /** tolower in the C locale */
  function Fold(c: char): char {
    if 'A' <= c <= 'Z' then c + 32 as char else c
  }

  predicate SameText(a: string, b: string) {
    |a| == |b| && forall i :: 0 <= i < |a| ==> Fold(a[i]) == Fold(b[i])
  }

  /** The capital and the small form of one letter. */
  predicate CaseOf(a: char, b: char) {
    exists k :: 0 <= k < 26 && UPPER[k] == a && LOWER[k] == b
  }

  /** The same character, or the two forms of one letter. */
  predicate SameLetter(a: char, b: char) {
    a == b || CaseOf(a, b) || CaseOf(b, a)
  }

  lemma Letter(k: nat)
    requires k < 26
    ensures UPPER[k] as int == 'A' as int + k && LOWER[k] as int == 'a' as int + k
  {
  }

  lemma FoldLetters(a: char, b: char)
    ensures Fold(a) == Fold(b) <==> SameLetter(a, b)
  {
    if 'A' <= a <= 'Z' {
      Letter(a as int - 'A' as int);
    }
    if 'A' <= b <= 'Z' {
      Letter(b as int - 'A' as int);
    }
    forall k: nat | k < 26 ensures UPPER[k] as int == 'A' as int + k && LOWER[k] as int == 'a' as int + k {
      Letter(k);
    }
  }

  /** Texts agree exactly if they do so character by character, up to the case of the 26 letters. */
  lemma SameTextLetters(a: string, b: string)
    ensures SameText(a, b) <==> |a| == |b| && forall i :: 0 <= i < |a| ==> SameLetter(a[i], b[i])
  {
    if |a| == |b| {
      forall i | 0 <= i < |a| ensures Fold(a[i]) == Fold(b[i]) <==> SameLetter(a[i], b[i]) {
        FoldLetters(a[i], b[i]);
      }
    }
  }

  /** strcasecmp, of which src/map.c:329 asks only whether it is 0. */
  method Agree(a: string, b: string) returns (same: bool)
    ensures same <==> |a| == |b| && forall i :: 0 <= i < |a| ==> SameLetter(a[i], b[i])
    ensures same <==> SameText(a, b)
  {
    SameTextLetters(a, b);
    var i := 0;
    while i < |a| && i < |b| && Fold(a[i]) == Fold(b[i])
      invariant i <= |a| && i <= |b|
      invariant forall j :: 0 <= j < i ==> Fold(a[j]) == Fold(b[j])
    {
      i := i + 1;
    }
    same := i == |a| && i == |b|;
  }

  // ----- utf8slice

  /** src/helpers.c:148-171, with the 5000 characters of src/map.c:177. */
  function Sliced(text: string): (r: string)
    ensures r <= text
    ensures |text| <= 5000 ==> r == text
    ensures |text| > 5000 ==> |r| == 5000
  {
    if |text| <= 5000 then text else text[..5000]
  }

  // ----- ids

  const DIGITS := "0123456789ABCDEF"

  /** %08X of printf, for `w` digits. */
  function Hex(n: nat, w: nat): (r: string)
    ensures |r| == w
  {
    if w == 0 then "" else Hex(n / 16, w - 1) + [DIGITS[n % 16]]
  }

  /** The value of one digit, capital or small; None for any other character. */
  function Digit(c: char): Option<nat> {
    if '0' <= c <= '9' then Some(c as int - '0' as int)
    else if 'a' <= c <= 'f' then Some(c as int - 'a' as int + 10)
    else if 'A' <= c <= 'F' then Some(c as int - 'A' as int + 10)
    else None
  }

  predicate AllDigits(hex: string) {
    forall i :: 0 <= i < |hex| ==> Digit(hex[i]).Some?
  }

  /** The number that the digits stand for. */
  function Value(hex: string): nat
    requires AllDigits(hex)
  {
    if hex == "" then 0 else 16 * Value(hex[..|hex| - 1]) + Digit(hex[|hex| - 1]).value
  }

  /** What hex2id64 makes of a text. */
  function IdRead(hex: string): nat {
    if |hex| == 16 && AllDigits(hex) then Value(hex) else 0
  }

  /** src/helpers.c:12-48: two digits make a byte, the highest byte first. */
  method ReadId(hex: string) returns (id: nat)
    ensures id == IdRead(hex)
  {
    if |hex| != 16 {
      return 0;
    }
    id := 0;
    var i := 0;
    while i < 8
      invariant 0 <= i <= 8 && AllDigits(hex[..2 * i]) && id == Value(hex[..2 * i])
    {
      var a, b := Digit(hex[2 * i]), Digit(hex[2 * i + 1]);
      if a.None? || b.None? {
        return 0;
      }
      ValueMore(hex, 2 * i);
      ValueMore(hex, 2 * i + 1);
      id := 256 * id + (16 * a.value + b.value);
      i := i + 1;
    }
    assert hex[..16] == hex;
  }

  lemma ValueMore(hex: string, n: nat)
    requires n < |hex| && AllDigits(hex[..n]) && Digit(hex[n]).Some?
    ensures AllDigits(hex[..n + 1]) && Value(hex[..n + 1]) == 16 * Value(hex[..n]) + Digit(hex[n]).value
  {
    assert hex[..n + 1][..n] == hex[..n];
  }

  lemma DigitRead(k: nat)
    requires k < 16
    ensures Digit(DIGITS[k]) == Some(k)
  {
  }

  function Power(w: nat): nat {
    if w == 0 then 1 else 16 * Power(w - 1)
  }

  /** What was printed is read, with other digits before it. */
  lemma {:induction false} HexRead(h: string, n: nat, w: nat)
    requires AllDigits(h) && n < Power(w)
    ensures AllDigits(h + Hex(n, w)) && Value(h + Hex(n, w)) == Power(w) * Value(h) + n
  {
    if w == 0 {
      assert h + "" == h;
    } else {
      HexRead(h, n / 16, w - 1);
      DigitRead(n % 16);
      OneDigitMore(h, Hex(n / 16, w - 1), DIGITS[n % 16], h + Hex(n, w));
      Placewise(Power(w - 1), Value(h), n);
    }
  }

  lemma {:induction false} OneDigitMore(h: string, g: string, c: char, l: string)
    requires AllDigits(h + g) && Digit(c).Some? && l == h + (g + [c])
    ensures AllDigits(l) && Value(l) == 16 * Value(h + g) + Digit(c).value
  {
    assert l[..|l| - 1] == h + g;
  }

  lemma Placewise(p: nat, v: nat, n: nat)
    ensures 16 * (p * v + n / 16) + n % 16 == (16 * p) * v + n
  {
  }

  /** src/map.c:335-337: the digits of 1 and of the number of slots make the id. */
  lemma IdPrinted(n: nat)
    requires n < 0x1_0000_0000
    ensures IdRead(Hex(1, 8) + Hex(n, 8)) == 0x1_0000_0000 + n
  {
    assert Power(8) == 0x1_0000_0000;
    HexRead("", 1, 8);
    assert "" + Hex(1, 8) == Hex(1, 8);
    HexRead(Hex(1, 8), n, 8);
  }
}
