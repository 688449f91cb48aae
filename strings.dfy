/** The ECMAScript string operations the build script relies on, each with the
    behaviour the language standard gives it. */
module JsStrings {

  /** A value or JavaScript's `undefined`. */
  datatype Option<T> = None | Some(value: T)

  /** The WhiteSpace and LineTerminator code points that String.prototype.trim
      removes (section 22.1.3.32 of ECMA-262 and the Zs category). */
  predicate IsTrimmable(c: char) {
    || c == ' ' || c == '\t' || c == '\n' || c == '\r'
    || c == '\U{000B}' || c == '\U{000C}' || c == '\U{00A0}' || c == '\U{1680}'
    || ('\U{2000}' <= c <= '\U{200A}')
    || c == '\U{2028}' || c == '\U{2029}' || c == '\U{202F}' || c == '\U{205F}'
    || c == '\U{3000}' || c == '\U{FEFF}'
  }

  /** Drops the leading whitespace of `s`. */
  function TrimStart(s: string): string
  {
    if s != [] && IsTrimmable(s[0]) then TrimStart(s[1..]) else s
  }

  /** Drops the trailing whitespace of `s`. */
  function TrimEnd(s: string): string
  {
    if s != [] && IsTrimmable(s[|s| - 1]) then TrimEnd(s[..|s| - 1]) else s
  }

  /** String.prototype.trim. */
  function Trim(s: string): string
  {
    TrimEnd(TrimStart(s))
  }

  /** TrimStart leaves a suffix of `s` that does not start with whitespace,
      and all it drops is whitespace. */
  lemma {:induction false} TrimStartShape(s: string)
    ensures var r := TrimStart(s);
            && |r| <= |s| && r == s[|s| - |r|..]
            && (r != [] ==> !IsTrimmable(r[0]))
            && forall k :: 0 <= k < |s| - |r| ==> IsTrimmable(s[k])
  {
    if s != [] && IsTrimmable(s[0]) {
      var t := s[1..];
      TrimStartShape(t);
      var r := TrimStart(t);
      assert TrimStart(s) == r;
      assert s[|s| - |r|..] == t[|t| - |r|..];
      forall k | 0 <= k < |s| - |r|
        ensures IsTrimmable(s[k])
      {
        if k > 0 {
          assert s[k] == t[k - 1];
        }
      }
    }
  }

  /** TrimEnd leaves a prefix of `s` that does not end with whitespace, and
      all it drops is whitespace. */
  lemma {:induction false} TrimEndShape(s: string)
    ensures var r := TrimEnd(s);
            && |r| <= |s| && r == s[..|r|]
            && (r != [] ==> !IsTrimmable(r[|r| - 1]))
            && forall k :: |r| <= k < |s| ==> IsTrimmable(s[k])
  {
    if s != [] && IsTrimmable(s[|s| - 1]) {
      TrimEndShape(s[..|s| - 1]);
    }
  }

  /** Trim keeps the slice of `s` between its leading and its trailing
      whitespace: the result neither starts nor ends with whitespace, and
      everything cut off is whitespace. */
  lemma TrimShape(s: string)
    ensures var r := Trim(s);
            var i := |s| - |TrimStart(s)|;
            && (r == [] || (!IsTrimmable(r[0]) && !IsTrimmable(r[|r| - 1])))
            && 0 <= i && i + |r| <= |s| && r == s[i..i + |r|]
            && (forall k :: 0 <= k < i ==> IsTrimmable(s[k]))
            && (forall k :: i + |r| <= k < |s| ==> IsTrimmable(s[k]))
  {
    var t := TrimStart(s);
    TrimStartShape(s);
    TrimEndShape(t);
    var r := TrimEnd(t);
    assert r == s[|s| - |t|..][..|r|];
  }

  /** A string that neither starts nor ends with whitespace is its own trim. */
  lemma TrimPlain(s: string)
    requires s == [] || (!IsTrimmable(s[0]) && !IsTrimmable(s[|s| - 1]))
    ensures Trim(s) == s
  {
  }

  /** Trimming is idempotent. */
  lemma TrimIdempotent(s: string)
    ensures Trim(Trim(s)) == Trim(s)
  {
    TrimShape(s);
    TrimPlain(Trim(s));
  }

  /** Trimming adds no character that was not there. */
  lemma TrimKeepsOut(s: string, c: char)
    requires c !in s
    ensures c !in Trim(s)
  {
    TrimShape(s);
  }

  /** Trimming yields the empty string exactly when `s` is all whitespace. */
  lemma TrimEmpty(s: string)
    ensures Trim(s) == [] <==> forall k :: 0 <= k < |s| ==> IsTrimmable(s[k])
  {
    TrimShape(s);
    if Trim(s) != [] {
      var i := |s| - |TrimStart(s)|;
      assert Trim(s)[0] == s[i];
    }
  }

  /** String.prototype.split with a one-character separator: the pieces between
      the occurrences of `d`, so that an empty string gives [""]. */
  function Split(s: string, d: char): (parts: seq<string>)
    ensures |parts| >= 1
    ensures forall i :: 0 <= i < |parts| ==> d !in parts[i]
  {
    if s == [] then [""]
    else
      var rest := Split(s[1..], d);
      if s[0] == d then [""] + rest
      else [[s[0]] + rest[0]] + rest[1..]
  }

  /** Array.prototype.join with a one-character separator. */
  function JoinWith(parts: seq<string>, d: char): string
  {
    if parts == [] then ""
    else if |parts| == 1 then parts[0]
    else parts[0] + [d] + JoinWith(parts[1..], d)
  }

  /** Joining the pieces of a split gives back the string that was split. */
  lemma {:induction false} JoinSplit(s: string, d: char)
    ensures JoinWith(Split(s, d), d) == s
  {
    if s != [] {
      var rest := Split(s[1..], d);
      JoinSplit(s[1..], d);
      if s[0] == d {
        assert Split(s, d) == [""] + rest;
        assert JoinWith([""] + rest, d) == [d] + JoinWith(rest, d);
      } else {
        var head := [s[0]] + rest[0];
        assert Split(s, d) == [head] + rest[1..];
        if |rest| == 1 {
          assert JoinWith([head], d) == head;
        } else {
          assert ([head] + rest[1..])[1..] == rest[1..];
          assert JoinWith(rest, d) == rest[0] + [d] + JoinWith(rest[1..], d);
        }
      }
    }
  }

  /** Splitting a join of separator-free pieces gives back the pieces. */
  lemma {:induction false} SplitJoin(parts: seq<string>, d: char)
    requires |parts| >= 1
    requires forall i :: 0 <= i < |parts| ==> d !in parts[i]
    ensures Split(JoinWith(parts, d), d) == parts
  {
    if |parts| == 1 {
      SplitFree(parts[0], d);
    } else {
      SplitJoin(parts[1..], d);
      SplitAfter(parts[0], JoinWith(parts[1..], d), d);
    }
  }

  /** A string without the separator splits into itself alone. */
  lemma {:induction false} SplitFree(s: string, d: char)
    requires d !in s
    ensures Split(s, d) == [s]
  {
    if s != [] {
      SplitFree(s[1..], d);
      assert [s[0]] + s[1..] == s;
    }
  }

  /** Splitting `p + [d] + t`, when `p` holds no separator, puts `p` in front of
      the pieces of `t`. */
  lemma {:induction false} SplitAfter(p: string, t: string, d: char)
    requires d !in p
    ensures Split(p + [d] + t, d) == [p] + Split(t, d)
  {
    if p == [] {
      assert p + [d] + t == [d] + t;
      assert ([d] + t)[1..] == t;
    } else {
      SplitAfter(p[1..], t, d);
      var s := p + [d] + t;
      assert s[0] == p[0] && s[1..] == p[1..] + [d] + t;
      assert [p[0]] + p[1..] == p;
    }
  }

  /** The lower-case form of one character as far as it can end in ASCII:
      A-Z and U+212A KELVIN SIGN are the only code points whose JavaScript
      lower case is an ASCII character; every other one is kept. */
  function LowerChar(c: char): char
  {
    if 'A' <= c <= 'Z' then (c as int + 32) as char
    else if c == '\U{212A}' then 'k'
    else c
  }

  /** String.prototype.toLowerCase, exact for every comparison with an ASCII
      string of lower-case letters, digits and punctuation. */
  function Lower(s: string): (r: string)
    ensures |r| == |s|
  {
    seq(|s|, i requires 0 <= i < |s| => LowerChar(s[i]))
  }

  /** A string already in lower-case ASCII is its own lower case. */
  lemma LowerOfLower(s: string)
    requires forall i :: 0 <= i < |s| ==> !('A' <= s[i] <= 'Z') && s[i] != '\U{212A}'
    ensures Lower(s) == s
  {
  }

  /** Lower-casing twice is lower-casing once. */
  lemma LowerIdempotent(s: string)
    ensures Lower(Lower(s)) == Lower(s)
  {
  }

  /** String.prototype.endsWith. */
  predicate EndsWith(s: string, suffix: string)
  {
    |suffix| <= |s| && s[|s| - |suffix|..] == suffix
  }

  /** A string ends with whatever was appended to it last. */
  lemma EndsWithAppended(s: string, suffix: string)
    ensures EndsWith(s + suffix, suffix)
  {
    assert (s + suffix)[|s|..] == suffix;
  }

  function Min(a: int, b: int): int { if a <= b then a else b }
  function Max(a: int, b: int): int { if a <= b then b else a }

  /** String.prototype.substr(start, length) (section B.2.2.1 of ECMA-262): a
      negative start counts from the end, and the length is clamped to what is
      left of the string. */
  function Substr(s: string, start: int, length: int): (r: string)
    ensures |r| == Min(Max(length, 0), |s| - (if start < 0 then Max(|s| + start, 0) else Min(start, |s|)))
    ensures 0 <= start ==> r == s[Min(start, |s|)..Min(start, |s|) + |r|]
  {
    var from := if start < 0 then Max(|s| + start, 0) else Min(start, |s|);
    var len := Min(Max(length, 0), |s| - from);
    s[from..from + len]
  }

  /** String.prototype.repeat with a finite count. */
  function Repeat(s: string, n: nat): (r: string)
  {
    if n == 0 then "" else s + Repeat(s, n - 1)
  }

  /** `n` copies of `s` hold `n * |s|` characters, the one at `k` being
      `s[k % |s|]`. */
  lemma {:induction false} RepeatAt(s: string, n: nat, k: nat)
    requires s != [] && k < n * |s|
    ensures |Repeat(s, n)| == n * |s|
    ensures Repeat(s, n)[k] == s[k % |s|]
  {
    RepeatLength(s, n);
    var m := |s|;
    if k < m {
      DivModUnique(k, m, 0, k);
    } else {
      var rest := Repeat(s, n - 1);
      assert Repeat(s, n) == s + rest;
      RepeatLength(s, n - 1);
      assert (n - 1) * m == n * m - m;
      RepeatAt(s, n - 1, k - m);
      assert Repeat(s, n)[k] == rest[k - m];
      ModShift(k, m);
    }
  }

  lemma {:induction false} RepeatLength(s: string, n: nat)
    ensures |Repeat(s, n)| == n * |s|
  {
    if n > 0 {
      RepeatLength(s, n - 1);
      assert n * |s| == |s| + (n - 1) * |s|;
    }
  }

  lemma ModShift(k: int, m: int)
    requires m > 0 && k >= m
    ensures (k - m) % m == k % m
  {
    var q, r := (k - m) / m, (k - m) % m;
    assert k - m == q * m + r;
    assert q * m + m == (q + 1) * m;
    DivModUnique(k, m, q + 1, r);
  }

  /** Euclidean division has one quotient and one remainder. */
  lemma DivModUnique(a: int, m: int, q: int, r: int)
    requires m > 0 && 0 <= r < m && a == q * m + r
    ensures a % m == r && a / m == q
  {
    var q', r' := a / m, a % m;
    assert a == q' * m + r';
    assert (q - q') * m == r' - r;
    if q > q' {
      MulAtLeast(q - q', m);
    } else if q < q' {
      MulAtLeast(q' - q, m);
    }
  }

  /** A positive multiple of `m` is at least `m`; kept apart so that the
      nonlinear step is proved in a context of its own. */
  lemma MulAtLeast(x: int, m: int)
    requires x >= 1 && m > 0
    ensures x * m >= m
  {
  }

  /** The replace(/\\/g, '/') rewrite: every backslash becomes a slash. */
  function ForwardSlashes(s: string): string
  {
    seq(|s|, i requires 0 <= i < |s| => if s[i] == '\\' then '/' else s[i])
  }

  /** The rewrite keeps the length and every other character, and leaves no
      backslash. */
  lemma ForwardSlashesSpec(s: string)
    ensures var r := ForwardSlashes(s);
            && |r| == |s| && '\\' !in r
            && (forall i :: 0 <= i < |s| && s[i] != '\\' ==> r[i] == s[i])
            && (forall i :: 0 <= i < |s| && s[i] == '\\' ==> r[i] == '/')
  {
  }

  /** Rewriting backslashes twice is rewriting them once. */
  lemma ForwardSlashesIdempotent(s: string)
    ensures ForwardSlashes(ForwardSlashes(s)) == ForwardSlashes(s)
  {
  }

  function DigitChar(d: nat): char
    requires d < 10
  {
    ('0' as int + d) as char
  }

  /** Number.prototype.toString for a natural number: its decimal digits. */
  function Decimal(n: nat): (r: string)
    ensures 1 <= |r|
  {
    if n < 10 then [DigitChar(n)] else Decimal(n / 10) + [DigitChar(n % 10)]
  }
}
