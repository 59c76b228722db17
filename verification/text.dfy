/** The Python `str` operations the scrapers and converters rely on: `lower`, `isdigit`,
    `strip`, `split`, `join`, `in` (substring) and the `int`/`str` conversions between
    digit strings and natural numbers. */
module Text {
  import opened Wrappers

  // ---------------------------------------------------------------- characters

  /** `str.isdigit` on one character (ASCII digits). */
  predicate IsDigit(c: char) { '0' <= c <= '9' }

  predicate AllDigits(s: string) { forall i :: 0 <= i < |s| ==> IsDigit(s[i]) }

  /** `str.isspace` on one character. */
  predicate IsSpace(c: char) {
    || c == ' ' || '\t' <= c <= '\r' || '\U{1c}' <= c <= '\U{1f}'
    || c == '\U{85}' || c == '\U{a0}' || c == '\U{1680}' || '\U{2000}' <= c <= '\U{200a}'
    || c == '\U{2028}' || c == '\U{2029}' || c == '\U{202f}' || c == '\U{205f}' || c == '\U{3000}'
  }

  predicate AllSpace(s: string) { forall i :: 0 <= i < |s| ==> IsSpace(s[i]) }

  predicate NoSpace(s: string) { forall i :: 0 <= i < |s| ==> !IsSpace(s[i]) }

  /** The upper-case letters whose lower-case form is one character further on by 0x20:
      A-Z and the Latin-1 capitals (without the multiplication sign). */
  predicate IsUpper(c: char) {
    'A' <= c <= 'Z' || ('\U{c0}' <= c <= '\U{de}' && c != '\U{d7}')
  }

  /** `str.lower` on one character. */
  function LowerChar(c: char): (r: char)
    ensures !IsUpper(r)
    ensures IsUpper(c) ==> r as int == c as int + 32
    ensures !IsUpper(c) ==> r == c
    ensures IsSpace(r) == IsSpace(c) && IsDigit(r) == IsDigit(c)
  {
    if IsUpper(c) then (c as int + 32) as char else c
  }

  /** `str.lower`: character by character, keeping the length. */
  function Lower(s: string): (r: string)
    ensures |r| == |s|
    ensures forall i :: 0 <= i < |s| ==> !IsUpper(r[i])
    ensures forall i :: 0 <= i < |s| ==> IsSpace(r[i]) == IsSpace(s[i]) && IsDigit(r[i]) == IsDigit(s[i])
  {
    seq(|s|, i requires 0 <= i < |s| => LowerChar(s[i]))
  }

  // ---------------------------------------------------------------- substrings

  predicate StartsWith(s: string, p: string) { |p| <= |s| && s[..|p|] == p }

  /** Python's `p in s` for strings. */
  predicate Contains(s: string, p: string)
    decreases |s|
  {
    StartsWith(s, p) || (|s| > 0 && Contains(s[1..], p))
  }

  /** An occurrence at a known position is enough for `p in s`. */
  lemma {:induction false} ContainsAt(s: string, p: string, i: nat)
    requires i + |p| <= |s| && s[i..i + |p|] == p
    ensures Contains(s, p)
    decreases i
  {
    if i > 0 {
      assert s[1..][i - 1..i - 1 + |p|] == p;
      ContainsAt(s[1..], p, i - 1);
    }
  }

  /** `p` occurs in any text built around it. */
  lemma ContainsBetween(a: string, p: string, b: string)
    ensures Contains(a + p + b, p)
  {
    assert (a + p + b)[|a|..|a| + |p|] == p;
    ContainsAt(a + p + b, p, |a|);
  }

  /** A string that contains `p + q` contains `p`. */
  lemma {:induction false} ContainsPrefix(s: string, p: string, q: string)
    requires Contains(s, p + q)
    ensures Contains(s, p)
    decreases |s|
  {
    if StartsWith(s, p + q) {
      assert s[..|p|] == s[..|p + q|][..|p|];
    } else {
      ContainsPrefix(s[1..], p, q);
    }
  }

  /** Every character of `p` occurs in any string that contains `p`. */
  lemma {:induction false} ContainedCharOccurs(s: string, p: string, k: nat)
    requires Contains(s, p) && k < |p|
    ensures p[k] in s
    decreases |s|
  {
    if StartsWith(s, p) {
      assert s[k] == p[k];
    } else {
      ContainedCharOccurs(s[1..], p, k);
      var j :| 0 <= j < |s[1..]| && s[1..][j] == p[k];
      assert s[j + 1] == p[k];
    }
  }

  /** `p in s` means an occurrence at some position. */
  lemma {:induction false} ContainsWitness(s: string, p: string) returns (i: nat)
    requires Contains(s, p)
    ensures i + |p| <= |s| && s[i..i + |p|] == p
    ensures |p| > 0 ==> s[i] == p[0]
    decreases |s|
  {
    if StartsWith(s, p) {
      i := 0;
      assert s[0..|p|] == p;
    } else {
      var j := ContainsWitness(s[1..], p);
      i := j + 1;
      assert s[i..i + |p|] == s[1..][j..j + |p|];
    }
  }

  /** When the first character of `p` occurs in `s` only at `k`, and `p` does not start
      there, `s` does not contain `p`. */
  lemma FirstCharOnlyAt(s: string, p: string, k: nat)
    requires |p| > 0
    requires forall i :: 0 <= i < |s| && s[i] == p[0] ==> i == k
    requires !(k + |p| <= |s| && s[k..k + |p|] == p)
    ensures !Contains(s, p)
  {
    if Contains(s, p) {
      var i := ContainsWitness(s, p);
      assert false;
    }
  }

  /** A character missing from `a` and `b` occurs in `a + [c] + b` only between them. */
  lemma OnlyBetween(a: string, c: char, b: string)
    requires c !in a && c !in b
    ensures forall i :: 0 <= i < |a + [c] + b| && (a + [c] + b)[i] == c ==> i == |a|
  {
  }

  /** A string that lacks one of the characters of `p` does not contain `p`. */
  lemma MissingCharRulesOut(s: string, p: string, k: nat)
    requires k < |p| && p[k] !in s
    ensures !Contains(s, p)
  {
    if Contains(s, p) {
      ContainedCharOccurs(s, p, k);
    }
  }

  /** No lower-cased string contains text with a character `str.lower` never produces. */
  lemma LowerNeverContainsUpper(s: string, p: string, k: nat)
    requires k < |p| && IsUpper(p[k])
    ensures !Contains(Lower(s), p)
  {
    MissingCharRulesOut(Lower(s), p, k);
  }

  // ---------------------------------------------------------------- digits

  /** `"".join(el for el in s if el.isdigit())`. */
  function Digits(s: string): (ds: string)
    ensures AllDigits(ds) && |ds| <= |s|
  {
    if s == [] then [] else (if IsDigit(s[0]) then [s[0]] else []) + Digits(s[1..])
  }

  /** `a` can be obtained from `b` by deleting characters. */
  predicate IsSubsequence(a: string, b: string)
    decreases |b|
  {
    a == [] || (b != [] && (IsSubsequence(a, b[1..]) || (a[0] == b[0] && IsSubsequence(a[1..], b[1..]))))
  }

  /** The digit string keeps every digit of the input, in order, and nothing else: it is a
      subsequence of the input made of digits only, and each digit occurs in it exactly as
      often as in the input. */
  lemma {:induction false} DigitsKeepsEveryDigitInOrder(s: string)
    ensures IsSubsequence(Digits(s), s)
    ensures forall c :: IsDigit(c) ==> multiset(Digits(s))[c] == multiset(s)[c]
    ensures forall c :: !IsDigit(c) ==> multiset(Digits(s))[c] == 0
  {
    if s != [] {
      DigitsKeepsEveryDigitInOrder(s[1..]);
      assert s == [s[0]] + s[1..];
      assert multiset(s) == multiset([s[0]]) + multiset(s[1..]);
      var head := if IsDigit(s[0]) then [s[0]] else [];
      assert Digits(s) == head + Digits(s[1..]);
      assert multiset(Digits(s)) == multiset(head) + multiset(Digits(s[1..]));
      if IsDigit(s[0]) {
        assert Digits(s)[0] == s[0] && Digits(s)[1..] == Digits(s[1..]);
      } else {
        assert Digits(s) == Digits(s[1..]);
        SubsequenceOfTail(Digits(s), s);
      }
    }
  }

  lemma SubsequenceOfTail(a: string, b: string)
    requires b != [] && IsSubsequence(a, b[1..])
    ensures IsSubsequence(a, b)
  {
  }

  /** Digit extraction distributes over concatenation. */
  lemma {:induction false} DigitsOfConcat(a: string, b: string)
    ensures Digits(a + b) == Digits(a) + Digits(b)
    decreases |a|
  {
    if a != [] {
      assert (a + b)[1..] == a[1..] + b;
      DigitsOfConcat(a[1..], b);
    } else {
      assert a + b == b;
    }
  }

  /** A string of digits is its own digit string. */
  lemma {:induction false} DigitsOfDigits(s: string)
    requires AllDigits(s)
    ensures Digits(s) == s
  {
    if s != [] {
      DigitsOfDigits(s[1..]);
    }
  }

  /** A string without digits contributes nothing. */
  lemma {:induction false} DigitsOfNonDigits(s: string)
    requires forall i :: 0 <= i < |s| ==> !IsDigit(s[i])
    ensures Digits(s) == []
  {
    if s != [] {
      DigitsOfNonDigits(s[1..]);
    }
  }

  /** Digits surrounded by text without digits. */
  lemma DigitsAround(a: string, d: string, b: string)
    requires forall i :: 0 <= i < |a| ==> !IsDigit(a[i])
    requires forall i :: 0 <= i < |b| ==> !IsDigit(b[i])
    requires AllDigits(d)
    ensures Digits(a + d + b) == d
  {
    DigitsOfConcat(a + d, b);
    DigitsOfConcat(a, d);
    DigitsOfNonDigits(a);
    DigitsOfNonDigits(b);
    DigitsOfDigits(d);
  }

  /** Lower-casing does not change which digits a string has. */
  lemma {:induction false} DigitsOfLower(s: string)
    ensures Digits(Lower(s)) == Digits(s)
  {
    if s != [] {
      assert Lower(s)[1..] == Lower(s[1..]);
      DigitsOfLower(s[1..]);
    }
  }

  // ---------------------------------------------------------------- numbers

  function DigitValue(c: char): nat
    requires IsDigit(c)
  {
    c as int - '0' as int
  }

  function DigitChar(d: nat): (c: char)
    requires d < 10
    ensures IsDigit(c) && DigitValue(c) == d
  {
    ('0' as int + d) as char
  }

  /** The number a string of decimal digits denotes (leading zeros allowed, as `int()` allows them). */
  function Value(ds: string): nat
    requires AllDigits(ds)
  {
    if ds == [] then 0 else Value(ds[..|ds| - 1]) * 10 + DigitValue(ds[|ds| - 1])
  }

  lemma ValueOfSnoc(ds: string, c: char)
    requires AllDigits(ds) && IsDigit(c)
    ensures AllDigits(ds + [c]) && Value(ds + [c]) == Value(ds) * 10 + DigitValue(c)
  {
    assert (ds + [c])[..|ds|] == ds;
  }

  /** CPython's default limit on the number of digits `int()` converts from a string. */
  const MaxIntDigits: nat := 4300

  /**
   * `int(ds)` on a string of digits: `ValueError` when the string is empty
   * or longer than `MaxIntDigits`.
   */
  function ParseInt(ds: string): Result<nat>
    requires AllDigits(ds)
  {
    if ds == [] || |ds| > MaxIntDigits then Err(ValueError) else Ok(Value(ds))
  }

  /** `str(n)` for a natural number: its decimal digits, without leading zeros. */
  function NatToString(n: nat): (s: string)
    ensures |s| > 0 && AllDigits(s)
    ensures s[0] == '0' ==> n == 0
    ensures Value(s) == n
  {
    if n < 10 then
      [DigitChar(n)]
    else
      var s := NatToString(n / 10) + [DigitChar(n % 10)];
      ValueOfSnoc(NatToString(n / 10), DigitChar(n % 10));
      s
  }

  /** Different numbers print differently. */
  lemma NatToStringInjective(a: nat, b: nat)
    requires NatToString(a) == NatToString(b)
    ensures a == b
  {
  }

  function Pow10(k: nat): (p: nat)
    ensures p >= 1
  {
    if k == 0 then 1 else 10 * Pow10(k - 1)
  }

  /** `n` printed in exactly `width` digits with leading zeros (as `%02d` or `%04d` would). */
  function Pad(n: nat, width: nat): (s: string)
    ensures |s| == width && AllDigits(s)
    ensures n < Pow10(width) ==> Value(s) == n
  {
    if width == 0 then
      []
    else
      var s := Pad(n / 10, width - 1) + [DigitChar(n % 10)];
      ValueOfSnoc(Pad(n / 10, width - 1), DigitChar(n % 10));
      assert n < Pow10(width) ==> n / 10 < Pow10(width - 1);
      s
  }

  // ---------------------------------------------------------------- whitespace

  /** `s.lstrip()`. */
  function TrimStart(s: string): (r: string)
    ensures |r| <= |s| && r == s[|s| - |r|..]
    ensures AllSpace(s[..|s| - |r|])
    ensures r == [] || !IsSpace(r[0])
  {
    if s != [] && IsSpace(s[0]) then
      var r := TrimStart(s[1..]);
      assert s[1..][|s| - 1 - |r|..] == s[|s| - |r|..];
      assert forall i :: 0 < i < |s| - |r| ==> s[i] == s[1..][..|s| - 1 - |r|][i - 1];
      r
    else
      s
  }

  /** `s.rstrip()`. */
  function TrimEnd(s: string): (r: string)
    ensures |r| <= |s| && r == s[..|r|]
    ensures AllSpace(s[|r|..])
    ensures r == [] || !IsSpace(r[|r| - 1])
  {
    if s != [] && IsSpace(s[|s| - 1]) then
      var r := TrimEnd(s[..|s| - 1]);
      assert s[..|s| - 1][..|r|] == s[..|r|];
      assert forall i :: |r| <= i < |s| - 1 ==> s[i] == s[..|s| - 1][|r|..][i - |r|];
      r
    else
      s
  }

  /** `s.strip()`: the input without its leading and trailing whitespace. */
  function Strip(s: string): (r: string)
    ensures r == [] || (!IsSpace(r[0]) && !IsSpace(r[|r| - 1]))
    ensures |r| <= |s|
  {
    TrimEnd(TrimStart(s))
  }

  /** `s.strip()` is empty exactly when `s` is all whitespace. */
  lemma StripEmpty(s: string)
    ensures Strip(s) == [] <==> AllSpace(s)
  {
    var t := TrimStart(s);
    if t == [] {
      assert s[..|s|] == s;
    } else {
      assert TrimEnd(t) != [];
    }
  }

  /** The longest prefix without whitespace. */
  function TakeWord(s: string): (w: string)
    ensures |w| <= |s| && w == s[..|w|] && NoSpace(w)
    ensures |w| < |s| ==> IsSpace(s[|w|])
  {
    if s == [] || IsSpace(s[0]) then [] else [s[0]] + TakeWord(s[1..])
  }

  /** Words are non-empty runs without whitespace. */
  predicate AreWords(words: seq<string>) {
    forall i :: 0 <= i < |words| ==> words[i] != [] && NoSpace(words[i])
  }

  lemma WordsCons(w: string, rest: seq<string>)
    requires w != [] && NoSpace(w) && AreWords(rest)
    ensures AreWords([w] + rest)
  {
    forall i | 0 <= i < |[w] + rest|
      ensures ([w] + rest)[i] != [] && NoSpace(([w] + rest)[i])
    {
      if i > 0 {
        assert ([w] + rest)[i] == rest[i - 1];
      }
    }
  }

  /** `s.split()`: the maximal runs of non-whitespace characters, in order. */
  function Split(s: string): (words: seq<string>)
    ensures AreWords(words)
    ensures words == [] <==> AllSpace(s)
    decreases |s|
  {
    var t := TrimStart(s);
    if t == [] then
      assert s[..|s|] == s;
      []
    else
      var w := TakeWord(t);
      assert |w| > 0;
      var rest := Split(t[|w|..]);
      assert t[0] == s[|s| - |t|];
      WordsCons(w, rest);
      [w] + rest
  }

  /** A run of non-whitespace followed by whitespace or the end is taken whole. */
  lemma {:induction false} TakeWordOfWord(w: string, rest: string)
    requires NoSpace(w) && (rest == [] || IsSpace(rest[0]))
    ensures TakeWord(w + rest) == w
  {
    if w == [] {
      assert w + rest == rest;
    } else {
      assert (w + rest)[1..] == w[1..] + rest;
      TakeWordOfWord(w[1..], rest);
    }
  }

  /** Splitting a text that starts with a whole word. */
  lemma SplitWordFirst(w: string, rest: string)
    requires w != [] && NoSpace(w) && (rest == [] || IsSpace(rest[0]))
    ensures Split(w + rest) == [w] + Split(rest)
  {
    var s := w + rest;
    assert TrimStart(s) == s;
    TakeWordOfWord(w, rest);
    assert s[|w|..] == rest;
  }

  /** Leading whitespace does not change a split. */
  lemma SplitSpaceFirst(c: char, t: string)
    requires IsSpace(c)
    ensures Split([c] + t) == Split(t)
  {
    assert ([c] + t)[1..] == t;
    assert TrimStart([c] + t) == TrimStart(t);
  }

  lemma InSuffix(s: string, n: nat, c: char)
    requires n <= |s| && c in s[n..]
    ensures c in s
  {
    var k :| 0 <= k < |s[n..]| && s[n..][k] == c;
    assert s[n + k] == c;
  }

  /** Every character of every word in `words` occurs in `s`. */
  predicate CharsOccur(words: seq<string>, s: string) {
    forall i, j :: 0 <= i < |words| && 0 <= j < |words[i]| ==> words[i][j] in s
  }

  lemma CharsOccurCons(s: string, t: string, w: string, rest: seq<string>)
    requires |t| <= |s| && t == s[|s| - |t|..] && |w| <= |t| && w == t[..|w|]
    requires CharsOccur(rest, t[|w|..])
    ensures CharsOccur([w] + rest, s)
  {
    forall i, j | 0 <= i < 1 + |rest| && 0 <= j < |([w] + rest)[i]|
      ensures ([w] + rest)[i][j] in s
    {
      var c := ([w] + rest)[i][j];
      if i == 0 {
        assert c == t[j];
      } else {
        assert c == rest[i - 1][j];
        InSuffix(t, |w|, c);
      }
      InSuffix(s, |s| - |t|, c);
    }
  }

  /** Every character of every word of `s.split()` occurs in `s`. */
  lemma {:induction false} SplitCharsOccur(s: string)
    ensures CharsOccur(Split(s), s)
    decreases |s|
  {
    var t := TrimStart(s);
    if t != [] {
      var w := TakeWord(t);
      SplitCharsOccur(t[|w|..]);
      CharsOccurCons(s, t, w, Split(t[|w|..]));
    }
  }

  /** `sep.join(parts)`. */
  function Join(sep: string, parts: seq<string>): string {
    if parts == [] then [] else if |parts| == 1 then parts[0] else parts[0] + sep + Join(sep, parts[1..])
  }

  /** `s.split(c)` for a one-character separator: always at least one piece. */
  function SplitOn(s: string, c: char): (parts: seq<string>)
    ensures |parts| > 0
    ensures forall i :: 0 <= i < |parts| ==> c !in parts[i]
  {
    if s == [] then
      [[]]
    else
      var rest := SplitOn(s[1..], c);
      if s[0] == c then [[]] + rest else [[s[0]] + rest[0]] + rest[1..]
  }

  /** Every occurrence of `x` replaced by `y`. */
  function Replace(s: string, x: char, y: char): (r: string)
    ensures |r| == |s|
  {
    seq(|s|, i requires 0 <= i < |s| => if s[i] == x then y else s[i])
  }

  /** Splitting on a character and joining with another replaces the first by the second. */
  lemma {:induction false} JoinSplitOnReplaces(s: string, x: char, y: char)
    ensures Join([y], SplitOn(s, x)) == Replace(s, x, y)
  {
    if s != [] {
      var rest := SplitOn(s[1..], x);
      JoinSplitOnReplaces(s[1..], x, y);
      assert Replace(s, x, y) == [if s[0] == x then y else s[0]] + Replace(s[1..], x, y);
      if s[0] != x {
        if |rest| > 1 {
          assert ([[s[0]] + rest[0]] + rest[1..])[1..] == rest[1..];
          assert Join([y], rest) == rest[0] + [y] + Join([y], rest[1..]);
        }
      }
    }
  }
}
