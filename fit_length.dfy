/** `_fitLength`: fixing a string to an exact width by padding or cutting it. */
module FitLengths {
  import opened JsStrings

  /** Math.ceil(a / b) for a positive divisor. */
  function CeilDiv(a: nat, b: nat): (q: nat)
    requires b > 0
    ensures a <= q * b < a + b
  {
    var q := (a + b - 1) / b;
    DivModUnique(a + b - 1, b, q, (a + b - 1) % b);
    q
  }

  /** `_fitLength(text, target, pad, padRight)`. A text shorter than `target` is
      padded with a slice of `pad` repeated: the first characters of the
      repetition on the right when `padRight`, its last ones on the left
      otherwise. A longer text is cut with `substr(0, target)`. `pad` may only
      be empty when no padding is needed: `''.repeat(Infinity)` throws. */
  function FitLength(text: string, target: int, pad: string, padRight: bool): string
    requires pad != [] || target <= |text|
  {
    var padLength := target - |text|;
    if padLength > 0 then
      var padChars := Repeat(pad, CeilDiv(padLength, |pad|));
      var cut := Substr(padChars, if padRight then 0 else |padChars| - padLength, padLength);
      (if padRight then "" else cut) + text + (if padRight then cut else "")
    else if padLength < 0 then
      Substr(text, 0, target)
    else
      text
  }

  /** The result always has exactly `target` characters. */
  lemma FitLengthLength(text: string, target: nat, pad: string, padRight: bool)
    requires pad != []
    ensures |FitLength(text, target, pad, padRight)| == target
  {
    var padLength := target - |text|;
    if padLength > 0 {
      RepeatLength(pad, CeilDiv(padLength, |pad|));
    }
  }

  /** A text that already has `target` characters comes back unchanged. */
  lemma FitLengthExact(text: string, pad: string, padRight: bool)
    ensures FitLength(text, |text|, pad, padRight) == text
  {
  }

  /** A longer text is cut to its first `target` characters; a negative target
      cuts it to nothing. */
  lemma FitLengthCut(text: string, target: int, pad: string, padRight: bool)
    requires target < |text|
    ensures FitLength(text, target, pad, padRight) == if target <= 0 then "" else text[..target]
  {
  }

  /** The shape of a padded result: the text with a slice of the repeated pad
      on the chosen side. */
  lemma FitLengthPadded(text: string, target: int, pad: string, padRight: bool)
    requires pad != [] && |text| < target
    ensures var padLength := target - |text|;
            var padChars := Repeat(pad, CeilDiv(padLength, |pad|));
            && padLength <= |padChars|
            && FitLength(text, target, pad, padRight)
               == if padRight then text + padChars[..padLength]
                  else padChars[|padChars| - padLength..] + text
  {
    var padLength := target - |text|;
    var n := CeilDiv(padLength, |pad|);
    RepeatLength(pad, n);
    var padChars := Repeat(pad, n);
    assert padLength <= |padChars|;
    var start := if padRight then 0 else |padChars| - padLength;
    var cut := Substr(padChars, start, padLength);
    assert |cut| == padLength;
    assert cut == padChars[start..start + padLength];
  }

  /** Padding on the right keeps the text as a prefix and continues with the
      pad string from its first character, cyclically. */
  lemma FitLengthPadRight(text: string, target: int, pad: string)
    requires pad != [] && |text| < target
    ensures var r := FitLength(text, target, pad, true);
            && |r| == target && r[..|text|] == text
            && forall k :: |text| <= k < target ==> r[k] == pad[(k - |text|) % |pad|]
  {
    var padLength := target - |text|;
    var n := CeilDiv(padLength, |pad|);
    var padChars := Repeat(pad, n);
    RepeatLength(pad, n);
    var r := FitLength(text, target, pad, true);
    FitLengthPadded(text, target, pad, true);
    forall k | |text| <= k < target
      ensures r[k] == pad[(k - |text|) % |pad|]
    {
      RepeatAt(pad, n, k - |text|);
    }
  }

  /** Padding on the left keeps the text as a suffix, and the padding ends
      with the last character of the pad string right before the text. */
  lemma FitLengthPadLeft(text: string, target: int, pad: string)
    requires pad != [] && |text| < target
    ensures var r := FitLength(text, target, pad, false);
            var padLength := target - |text|;
            && |r| == target && r[padLength..] == text
            && forall k :: 0 <= k < padLength ==>
                 r[padLength - 1 - k] == pad[|pad| - 1 - k % |pad|]
  {
    var padLength := target - |text|;
    var n := CeilDiv(padLength, |pad|);
    FitLengthPadded(text, target, pad, false);
    LeftPadChars(Repeat(pad, n), padLength, text, pad, n);
  }

  /** The characters of `padChars[|padChars| - padLength..] + text` when
      `padChars` is `n` copies of `pad`. */
  lemma LeftPadChars(padChars: string, padLength: nat, text: string, pad: string, n: nat)
    requires pad != [] && padChars == Repeat(pad, n) && padLength <= |padChars|
    ensures var r := padChars[|padChars| - padLength..] + text;
            && r[padLength..] == text
            && forall k :: 0 <= k < padLength ==> r[padLength - 1 - k] == pad[|pad| - 1 - k % |pad|]
  {
    var r := padChars[|padChars| - padLength..] + text;
    forall k | 0 <= k < padLength
      ensures r[padLength - 1 - k] == pad[|pad| - 1 - k % |pad|]
    {
      assert r[padLength - 1 - k] == padChars[|padChars| - 1 - k];
      RepeatFromEnd(pad, n, k);
    }
  }

  /** The character `k` steps back from the end of `n` copies of `s`. */
  lemma RepeatFromEnd(s: string, n: nat, k: nat)
    requires s != [] && k < |Repeat(s, n)|
    ensures Repeat(s, n)[|Repeat(s, n)| - 1 - k] == s[|s| - 1 - k % |s|]
  {
    RepeatLength(s, n);
    RepeatAt(s, n, n * |s| - 1 - k);
    ReverseMod(n, |s|, k);
  }

  /** Counting back `k` steps from the end of `n` copies of a string of
      length `m` lands at position `m - 1 - k % m` of a copy. */
  lemma ReverseMod(n: nat, m: nat, k: nat)
    requires m > 0 && k < n * m
    ensures (n * m - 1 - k) % m == m - 1 - k % m
  {
    var q, r := k / m, k % m;
    assert k == q * m + r;
    assert n * m - 1 - k == (n - q - 1) * m + (m - 1 - r);
    DivModUnique(n * m - 1 - k, m, n - q - 1, m - 1 - r);
  }

  /** The two-digit fields `_getTime` builds: `_fitLength(n, 2, '0')` for an
      hour, minute or second `n` is `n` written with two decimal digits. */
  lemma TimeFieldDigits(n: nat)
    requires n < 100
    ensures FitLength(Decimal(n), 2, "0", false) == [DigitChar(n / 10), DigitChar(n % 10)]
  {
    if n < 10 {
      FitLengthPadLeft(Decimal(n), 2, "0");
    } else {
      assert Decimal(n) == [DigitChar(n / 10), DigitChar(n % 10)];
    }
  }
}
