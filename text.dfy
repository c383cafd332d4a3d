/** The Python string operations the scraper relies on: `lower`, `lstrip`/`rstrip`, `replace` with an
    empty replacement, and the decimal digits of `str(int)`. */
module Text {

  // ---------------------------------------------------------------- case

  /** Lower-cases one character as far as the result can be an ASCII letter: the capitals `A`-`Z`, the
      dotted capital I (U+0130, simple lower-case `i`) and the Kelvin sign (U+212A, simple lower-case
      `k`). Every other character is left alone. */
  function LowerChar(c: char): char
  {
    if 'A' <= c <= 'Z' then (c as int + 32) as char
    else if c == '\U{0130}' then 'i'
    else if c == '\U{212A}' then 'k'
    else c
  }

  /** Python 2's `unicode.lower()` wherever it yields an ASCII letter. */
  function Lower(s: string): (r: string)
    ensures |r| == |s|
    ensures forall i :: 0 <= i < |s| ==> r[i] == LowerChar(s[i])
  {
    if s == [] then [] else [LowerChar(s[0])] + Lower(s[1..])
  }

  // ---------------------------------------------------------------- whitespace

  /** The characters Python 2's `unicode.isspace` accepts, which `strip()` removes. */
  predicate IsSpace(c: char)
  {
    var n := c as int;
    (9 <= n <= 13) || (28 <= n <= 32) || n == 0x85 || n == 0xA0 || n == 0x1680 || n == 0x180E
    || (0x2000 <= n <= 0x200A) || n == 0x2028 || n == 0x2029 || n == 0x202F || n == 0x205F || n == 0x3000
  }

  predicate AllSpace(s: string)
  {
    forall i :: 0 <= i < |s| ==> IsSpace(s[i])
  }

  /** Leading whitespace followed by a left-trimmed tail is a left-trimmed whole. */
  lemma SpaceThenSuffix(s: string, t: string, r: string)
    requires s != [] && IsSpace(s[0]) && t == s[1..]
    requires |r| <= |t| && r == t[|t| - |r|..]
    requires AllSpace(t[..|t| - |r|])
    requires r == [] || !IsSpace(r[0])
    ensures |r| <= |s| && r == s[|s| - |r|..]
    ensures AllSpace(s[..|s| - |r|])
    ensures r == [] || !IsSpace(r[0])
  {
    var k := |t| - |r|;
    assert s[..k + 1] == [s[0]] + t[..k];
    assert t[k..] == s[k + 1..];
  }

  /** `lstrip()`: the longest suffix that does not start with whitespace. */
  function TrimLeft(s: string): (r: string)
    ensures |r| <= |s| && r == s[|s| - |r|..]
    ensures AllSpace(s[..|s| - |r|])
    ensures r == [] || !IsSpace(r[0])
    decreases |s|
  {
    if s != [] && IsSpace(s[0]) then
      var r := TrimLeft(s[1..]);
      SpaceThenSuffix(s, s[1..], r);
      r
    else s
  }

  /** A right-trimmed prefix of the text without its trailing whitespace character is a
      right-trimmed prefix of the whole. */
  lemma PrefixThenSpace(s: string, t: string, r: string)
    requires s != [] && IsSpace(s[|s| - 1]) && t == s[..|s| - 1]
    requires |r| <= |t| && r == t[..|r|]
    requires AllSpace(t[|r|..])
    requires r == [] || !IsSpace(r[|r| - 1])
    ensures |r| <= |s| && r == s[..|r|]
    ensures AllSpace(s[|r|..])
    ensures r == [] || !IsSpace(r[|r| - 1])
  {
    assert s[|r|..] == t[|r|..] + [s[|s| - 1]];
  }

  /** `rstrip()`: the longest prefix that does not end with whitespace. */
  function TrimRight(s: string): (r: string)
    ensures |r| <= |s| && r == s[..|r|]
    ensures AllSpace(s[|r|..])
    ensures r == [] || !IsSpace(r[|r| - 1])
    decreases |s|
  {
    if s != [] && IsSpace(s[|s| - 1]) then
      var r := TrimRight(s[..|s| - 1]);
      PrefixThenSpace(s, s[..|s| - 1], r);
      r
    else s
  }

  /** `s.lstrip().rstrip()`. */
  function Strip(s: string): string
  {
    TrimRight(TrimLeft(s))
  }

  lemma {:induction false} TrimLeftPadded(pre: string, u: string)
    requires AllSpace(pre)
    requires u == [] || !IsSpace(u[0])
    ensures TrimLeft(pre + u) == u
    decreases |pre|
  {
    if pre == [] {
      assert pre + u == u;
    } else {
      assert (pre + u)[1..] == pre[1..] + u;
      TrimLeftPadded(pre[1..], u);
    }
  }

  lemma {:induction false} TrimRightPadded(u: string, post: string)
    requires AllSpace(post)
    requires u == [] || !IsSpace(u[|u| - 1])
    ensures TrimRight(u + post) == u
    decreases |post|
  {
    if post == [] {
      assert u + post == u;
    } else {
      var n := |u + post|;
      assert (u + post)[..n - 1] == u + post[..|post| - 1];
      TrimRightPadded(u, post[..|post| - 1]);
    }
  }

  /** Stripping removes exactly the surrounding whitespace: text that neither starts nor ends with
      whitespace comes back unchanged from any padding. */
  lemma StripPadded(pre: string, t: string, post: string)
    requires AllSpace(pre) && AllSpace(post)
    requires t == [] || (!IsSpace(t[0]) && !IsSpace(t[|t| - 1]))
    ensures Strip(pre + t + post) == t
  {
    assert pre + t + post == pre + (t + post);
    if t == [] {
      assert t + post == post;
      assert AllSpace(pre + post);
      assert pre + post == (pre + post) + [];
      TrimLeftPadded(pre + post, []);
      assert TrimLeft(pre + t + post) == [];
    } else {
      assert (t + post)[0] == t[0];
      TrimLeftPadded(pre, t + post);
      TrimRightPadded(t, post);
    }
  }

  // ---------------------------------------------------------------- replace

  /** `p` occurs in `s` at position `i`. */
  predicate OccursAt(s: string, p: string, i: int)
  {
    0 <= i && i + |p| <= |s| && s[i..i + |p|] == p
  }

  /** `s.replace(p, '')`: every occurrence of `p`, found left to right without overlap, deleted. */
  function Removed(s: string, p: string): (r: string)
    requires p != []
    ensures |r| <= |s|
    ensures (forall i :: !OccursAt(s, p, i)) ==> r == s
    decreases |s|
  {
    if |s| < |p| then s
    else if s[..|p|] == p then
      assert OccursAt(s, p, 0);
      Removed(s[|p|..], p)
    else
      assert forall i :: OccursAt(s[1..], p, i) ==> OccursAt(s, p, i + 1) by {
        forall i | OccursAt(s[1..], p, i) ensures OccursAt(s, p, i + 1) {
          assert s[1..][i..i + |p|] == s[i + 1..i + 1 + |p|];
        }
      }
      assert !OccursAt(s, p, 0) ==> s[..|p|] != p;
      [s[0]] + Removed(s[1..], p)
  }

  /** An occurrence in the tail is an occurrence in the whole text one position later. */
  lemma OccursShift(s: string, p: string, j: nat)
    requires s != []
    ensures OccursAt(s[1..], p, j) <==> OccursAt(s, p, j + 1)
  {
    if j + 1 + |p| <= |s| {
      assert s[1..][j..j + |p|] == s[j + 1..j + 1 + |p|];
    }
  }

  /** Where the text does not start with the pattern, its first character is kept. */
  lemma RemovedKeepsHead(s: string, p: string)
    requires p != [] && s != [] && !OccursAt(s, p, 0)
    ensures Removed(s, p) == [s[0]] + Removed(s[1..], p)
  {
    if |s| < |p| {
      assert forall i :: !OccursAt(s, p, i);
      assert forall i :: !OccursAt(s[1..], p, i);
    }
  }

  /** Where the text starts with the pattern, that occurrence is deleted. */
  lemma RemovedDropsHead(s: string, p: string, i: nat)
    requires p != [] && i == 0 && OccursAt(s, p, i)
    ensures Removed(s, p) == s[..i] + Removed(s[i + |p|..], p)
  {
    assert s[..|p|] == s[0..0 + |p|];
    assert s[i + |p|..] == s[|p|..];
    assert s[..i] + Removed(s[|p|..], p) == Removed(s[|p|..], p);
  }

  /** The first occurrence at `i > 0` is, in the tail, the first occurrence at `i - 1`. */
  lemma FirstOccurrenceInTail(s: string, p: string, i: nat)
    requires 0 < i && OccursAt(s, p, i)
    requires forall j :: 0 <= j < i ==> !OccursAt(s, p, j)
    ensures OccursAt(s[1..], p, i - 1)
    ensures forall j :: 0 <= j < i - 1 ==> !OccursAt(s[1..], p, j)
  {
    OccursShift(s, p, i - 1);
    forall j | 0 <= j < i - 1 ensures !OccursAt(s[1..], p, j) {
      OccursShift(s, p, j);
    }
  }

  /** Splitting off the first character of a prefix. */
  lemma PrefixCons(s: string, i: nat, k: nat, rest: string)
    requires k + 1 == i <= |s|
    ensures [s[0]] + (s[1..][..k] + rest) == s[..i] + rest
  {
    assert s[..i] == [s[0]] + s[1..][..k];
  }

  /** Dropping `j` from the tail is dropping `j + 1` from the whole. */
  lemma DropTail(s: string, j: nat, k: nat)
    requires j + 1 == k <= |s|
    ensures s[1..][j..] == s[k..]
  {
  }

  /** Where the text does not start with the pattern and the tail has its first occurrence at `k`,
      the first character is kept and the tail is processed as it stands. */
  lemma RemovedFirstStep(s: string, p: string, i: nat, k: nat)
    requires p != [] && k + 1 == i && i + |p| <= |s| && !OccursAt(s, p, 0)
    requires Removed(s[1..], p) == s[1..][..k] + Removed(s[1..][k + |p|..], p)
    ensures Removed(s, p) == s[..i] + Removed(s[i + |p|..], p)
  {
    var t, rest := s[1..], Removed(s[i + |p|..], p);
    DropTail(s, k + |p|, i + |p|);
    assert t[k + |p|..] == s[i + |p|..];
    assert Removed(t[k + |p|..], p) == rest;
    RemovedKeepsHead(s, p);
    assert Removed(s, p) == [s[0]] + (t[..k] + rest);
    PrefixCons(s, i, k, rest);
  }

  /** `replace` works left to right: the text before the first occurrence is kept, that occurrence is
      deleted, and the rest is processed the same way. */
  lemma {:induction false} RemovedFirst(s: string, p: string, i: nat)
    requires p != [] && OccursAt(s, p, i)
    requires forall j :: 0 <= j < i ==> !OccursAt(s, p, j)
    ensures Removed(s, p) == s[..i] + Removed(s[i + |p|..], p)
    decreases i
  {
    if i == 0 {
      RemovedDropsHead(s, p, i);
    } else {
      var k := i - 1;
      FirstOccurrenceInTail(s, p, i);
      RemovedFirst(s[1..], p, k);
      RemovedFirstStep(s, p, i, k);
    }
  }

  /** A unit suffix after text that cannot start an occurrence of it is the only thing removed. */
  lemma {:induction false} RemovedUnitSuffix(d: string, p: string)
    requires p != [] && p[0] !in d
    ensures Removed(d + p, p) == d
    decreases |d|
  {
    if d == [] {
      assert d + p == p && p[|p|..] == [];
    } else {
      assert (d + p)[0] == d[0] != p[0];
      assert (d + p)[..|p|] != p;
      assert (d + p)[1..] == d[1..] + p;
      RemovedUnitSuffix(d[1..], p);
    }
  }

  // ---------------------------------------------------------------- digits

  predicate IsDigit(c: char)
  {
    '0' <= c <= '9'
  }

  predicate AllDigits(s: string)
  {
    forall i :: 0 <= i < |s| ==> IsDigit(s[i])
  }

  function DigitValue(c: char): nat
    requires IsDigit(c)
  {
    c as int - '0' as int
  }

  function DigitChar(d: nat): (c: char)
    requires d < 10
    ensures IsDigit(c) && DigitValue(c) == d
  {
    ('0' as int + d) as char
  }

  function Pow10(n: nat): nat
  {
    if n == 0 then 1 else 10 * Pow10(n - 1)
  }

  /** The number a string of decimal digits spells, most significant digit first. */
  function DigitsValue(s: string): (v: nat)
    requires AllDigits(s)
    ensures v < Pow10(|s|)
  {
    if s == [] then 0 else 10 * DigitsValue(s[..|s| - 1]) + DigitValue(s[|s| - 1])
  }

  /** The last `width` decimal digits of `n`, zero-padded on the left (`%0*d`). */
  function Padded(n: nat, width: nat): (r: string)
    ensures |r| == width && AllDigits(r)
  {
    if width == 0 then [] else Padded(n / 10, width - 1) + [DigitChar(n % 10)]
  }

  lemma {:induction false} PaddedValue(n: nat, width: nat)
    requires n < Pow10(width)
    ensures DigitsValue(Padded(n, width)) == n
  {
    if width > 0 {
      var r := Padded(n, width);
      assert r[..width - 1] == Padded(n / 10, width - 1);
      PaddedValue(n / 10, width - 1);
    }
  }

  lemma DivModTen(a: nat, b: nat)
    requires b < 10
    ensures (10 * a + b) / 10 == a && (10 * a + b) % 10 == b
  {
  }

  /** The last digit of a digit string is its value's remainder by ten, the rest its quotient. */
  lemma DigitsValueDivMod(s: string)
    requires AllDigits(s) && s != []
    ensures AllDigits(s[..|s| - 1])
    ensures DigitsValue(s) / 10 == DigitsValue(s[..|s| - 1]) && DigitsValue(s) % 10 == DigitValue(s[|s| - 1])
  {
    assert AllDigits(s[..|s| - 1]);
    DivModTen(DigitsValue(s[..|s| - 1]), DigitValue(s[|s| - 1]));
  }

  /** Padding the value of a digit string peels off its last digit. */
  lemma PaddedLastDigit(s: string)
    requires AllDigits(s) && s != []
    ensures AllDigits(s[..|s| - 1])
    ensures Padded(DigitsValue(s), |s|) == Padded(DigitsValue(s[..|s| - 1]), |s| - 1) + [s[|s| - 1]]
  {
    var v := DigitsValue(s);
    DigitsValueDivMod(s);
    assert Padded(v, |s|) == Padded(v / 10, |s| - 1) + [DigitChar(v % 10)];
    assert DigitChar(DigitValue(s[|s| - 1])) == s[|s| - 1];
  }

  lemma {:induction false} ValuePadded(s: string)
    requires AllDigits(s)
    ensures Padded(DigitsValue(s), |s|) == s
  {
    if s != [] {
      PaddedLastDigit(s);
      ValuePadded(s[..|s| - 1]);
      assert s == s[..|s| - 1] + [s[|s| - 1]];
    }
  }

  /** `str(n)` for a non-negative integer: its decimal digits without leading zeros. */
  function Decimal(n: nat): (r: string)
    ensures r != [] && AllDigits(r) && DigitsValue(r) == n
    ensures r[0] == '0' <==> n == 0
  {
    if n < 10 then [DigitChar(n)]
    else
      var r := Decimal(n / 10) + [DigitChar(n % 10)];
      assert r[..|r| - 1] == Decimal(n / 10);
      r
  }
}
