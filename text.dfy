/** String primitives the Python code relies on: `str.strip()`, `str.lower()` /
    `str.casefold()` (modelled on ASCII letters), the `in` substring test,
    `re.search(r"(\d+)")` for the first run of decimal digits, `int()` on such a
    run and the decimal rendering of `f"{n}"` and `f"{n:02d}"`. */
module Text {
  import opened Wrappers

  /** Python's `str.isspace()`: the characters `strip()` removes and `\s` matches. */
  predicate IsSpace(c: char) {
    ('\t' <= c <= '\r') || ('\U{1C}' <= c <= ' ') || c == '\U{85}' || c == '\U{A0}'
    || c == '\U{1680}' || ('\U{2000}' <= c <= '\U{200A}') || c == '\U{2028}' || c == '\U{2029}'
    || c == '\U{202F}' || c == '\U{205F}' || c == '\U{3000}'
  }

  function TrimLeft(s: string): (r: string)
    ensures |r| <= |s|
    ensures r == [] || !IsSpace(r[0])
  {
    if s != [] && IsSpace(s[0]) then TrimLeft(s[1..]) else s
  }

  function TrimRight(s: string): (r: string)
    ensures |r| <= |s|
    ensures r == [] || !IsSpace(r[|r| - 1])
  {
    if s != [] && IsSpace(s[|s| - 1]) then TrimRight(s[..|s| - 1]) else s
  }

  /** `s.strip()`: the slice of `s` left once leading and trailing whitespace is removed. */
  function Strip(s: string): (r: string)
    ensures |r| <= |s|
    ensures r == [] || (!IsSpace(r[0]) && !IsSpace(r[|r| - 1]))
  {
    var l := TrimLeft(s);
    TrimRightPrefix(l);
    TrimRight(l)
  }

  /** `TrimLeft` drops a prefix made only of whitespace. */
  lemma {:induction false} TrimLeftSuffix(s: string)
    ensures TrimLeft(s) == s[|s| - |TrimLeft(s)|..]
    ensures forall k :: 0 <= k < |s| - |TrimLeft(s)| ==> IsSpace(s[k])
    decreases |s|
  {
    if s != [] && IsSpace(s[0]) {
      var t := s[1..];
      TrimLeftSuffix(t);
      assert t[|t| - |TrimLeft(t)|..] == s[|s| - |TrimLeft(s)|..];
      forall k | 0 < k < |s| - |TrimLeft(s)| ensures IsSpace(s[k]) {
        assert s[k] == t[k - 1];
      }
    }
  }

  /** `TrimRight` drops a suffix made only of whitespace. */
  lemma {:induction false} TrimRightPrefix(s: string)
    ensures TrimRight(s) == s[..|TrimRight(s)|]
    ensures forall k :: |TrimRight(s)| <= k < |s| ==> IsSpace(s[k])
    decreases |s|
  {
    if s != [] && IsSpace(s[|s| - 1]) {
      var t := s[..|s| - 1];
      TrimRightPrefix(t);
      assert t[..|TrimRight(t)|] == s[..|TrimRight(s)|];
      forall k | |TrimRight(s)| <= k < |s| - 1 ensures IsSpace(s[k]) {
        assert s[k] == t[k];
      }
    }
  }

  /** `Strip(s)` is the slice of `s` that starts after its leading whitespace. */
  lemma StripSlice(s: string)
    ensures OccursAt(Strip(s), s, |s| - |TrimLeft(s)|)
  {
    var l := TrimLeft(s);
    TrimLeftSuffix(s);
    TrimRightPrefix(l);
    assert Strip(s) == l[..|Strip(s)|];
  }

  lemma TrimLeftNoop(s: string)
    requires s == [] || !IsSpace(s[0])
    ensures TrimLeft(s) == s
  {
  }

  lemma TrimRightNoop(s: string)
    requires s == [] || !IsSpace(s[|s| - 1])
    ensures TrimRight(s) == s
  {
  }

  /** A string that neither starts nor ends with whitespace is its own strip. */
  lemma StripNoop(s: string)
    requires s == [] || (!IsSpace(s[0]) && !IsSpace(s[|s| - 1]))
    ensures Strip(s) == s
  {
    TrimLeftNoop(s);
    TrimRightNoop(s);
  }

  /** Stripping twice is stripping once. */
  lemma StripIdempotent(s: string)
    ensures Strip(Strip(s)) == Strip(s)
  {
    var r := Strip(s);
    TrimLeftNoop(r);
    TrimRightNoop(r);
  }

  /** A string made only of whitespace strips to the empty string, and nothing else does. */
  lemma StripEmptyIffBlank(s: string)
    ensures Strip(s) == [] <==> forall k :: 0 <= k < |s| ==> IsSpace(s[k])
  {
    var l := TrimLeft(s);
    TrimLeftSuffix(s);
    TrimRightPrefix(l);
    if Strip(s) == [] {
      forall k | |s| - |l| <= k < |s| ensures IsSpace(s[k]) {
        assert s[k] == l[k - (|s| - |l|)];
      }
    } else {
      assert s[|s| - |l|] == l[0];
    }
  }

  function LowerChar(c: char): (d: char)
    ensures 'A' <= c <= 'Z' ==> 'a' <= d <= 'z' && d as int == c as int + 32
    ensures !('A' <= c <= 'Z') ==> d == c
  {
    if 'A' <= c <= 'Z' then (c as int + 32) as char else c
  }

  /** `s.lower()` and `s.casefold()`, restricted to ASCII letters. */
  function Lower(s: string): (r: string)
    ensures |r| == |s|
    ensures forall k :: 0 <= k < |s| ==> r[k] == LowerChar(s[k])
  {
    seq(|s|, k requires 0 <= k < |s| => LowerChar(s[k]))
  }

  /** `p` is the slice of `s` that starts at index `i`. */
  predicate OccursAt(p: string, s: string, i: int) {
    0 <= i <= |s| - |p| && s[i..i + |p|] == p
  }

  /** Python's `p in s` for strings: `p` occurs as a contiguous slice of `s`. */
  predicate IsSubstring(p: string, s: string) {
    exists i | 0 <= i <= |s| - |p| :: OccursAt(p, s, i)
  }

  predicate IsDigit(c: char) {
    '0' <= c <= '9'
  }

  predicate AllDigits(s: string) {
    forall k :: 0 <= k < |s| ==> IsDigit(s[k])
  }

  function DigitValue(c: char): (v: nat)
    requires IsDigit(c)
    ensures v < 10
  {
    c as int - '0' as int
  }

  function DigitChar(v: nat): (c: char)
    requires v < 10
    ensures IsDigit(c) && DigitValue(c) == v
  {
    ('0' as int + v) as char
  }

  /** The number a string of decimal digits denotes (Python's `int()` on a `\d+` match). */
  function DecimalValue(s: string): nat
    requires AllDigits(s)
  {
    if s == [] then 0 else 10 * DecimalValue(s[..|s| - 1]) + DigitValue(s[|s| - 1])
  }

  /** `str(n)` for a natural number. */
  function NatToDecimal(n: nat): (r: string)
    ensures r != [] && AllDigits(r)
    decreases n
  {
    if n < 10 then [DigitChar(n)] else NatToDecimal(n / 10) + [DigitChar(n % 10)]
  }

  /** Rendering a number in decimal and reading it back gives the number. */
  lemma {:induction false} DecimalRoundTrip(n: nat)
    ensures DecimalValue(NatToDecimal(n)) == n
    decreases n
  {
    var r := NatToDecimal(n);
    if n >= 10 {
      DecimalRoundTrip(n / 10);
      assert r[..|r| - 1] == NatToDecimal(n / 10);
    }
  }

  /** Leading zeros are never produced: the rendering starts with `0` only for zero itself. */
  lemma {:induction false} DecimalNoLeadingZero(n: nat)
    ensures NatToDecimal(n)[0] == '0' <==> n == 0
    decreases n
  {
    if n >= 10 {
      DecimalNoLeadingZero(n / 10);
    }
  }

  /** `f"{n:02d}"` for `n < 100`: always two digits, reading back as `n`. */
  function Pad2(n: nat): (r: string)
    requires n < 100
    ensures |r| == 2 && AllDigits(r) && DecimalValue(r) == n
  {
    var r := [DigitChar(n / 10), DigitChar(n % 10)];
    assert r[..1] == [DigitChar(n / 10)] && r[..1][..0] == [];
    assert DecimalValue(r[..1]) == n / 10;
    assert DecimalValue(r) == 10 * (n / 10) + n % 10;
    r
  }

  /** Index of the first decimal digit at or after `from`, or `|s|` when there is none. */
  function FirstDigitFrom(s: string, from: nat): (i: nat)
    requires from <= |s|
    ensures from <= i <= |s|
    ensures i < |s| ==> IsDigit(s[i])
    ensures forall k :: from <= k < i ==> !IsDigit(s[k])
    decreases |s| - from
  {
    if from == |s| || IsDigit(s[from]) then from else FirstDigitFrom(s, from + 1)
  }

  /** End of the maximal run of digits that starts at `from`. */
  function DigitRunEnd(s: string, from: nat): (j: nat)
    requires from <= |s|
    ensures from <= j <= |s|
    ensures forall k :: from <= k < j ==> IsDigit(s[k])
    ensures j == |s| || !IsDigit(s[j])
    decreases |s| - from
  {
    if from < |s| && IsDigit(s[from]) then DigitRunEnd(s, from + 1) else from
  }

  /** `re.search(r"(\d+)", s)`: the bounds of the leftmost maximal run of digits. */
  function FirstDigitRun(s: string): (r: Option<(nat, nat)>)
    ensures r.None? <==> forall k :: 0 <= k < |s| ==> !IsDigit(s[k])
    ensures r.Some? ==> var (i, j) := r.value;
      && i < j <= |s|
      && AllDigits(s[i..j])
      && (forall k :: 0 <= k < i ==> !IsDigit(s[k]))
      && (j == |s| || !IsDigit(s[j]))
  {
    var i := FirstDigitFrom(s, 0);
    if i == |s| then None
    else
      var j := DigitRunEnd(s, i);
      assert AllDigits(s[i..j]) by {
        forall k | 0 <= k < j - i ensures IsDigit(s[i..j][k]) {
          assert s[i..j][k] == s[i + k];
        }
      }
      Some((i, j))
  }

  /** The value of the first run of digits in `s`, as `int(re.search(r"(\d+)", s).group(1))`
      computes it, or `None` when `s` holds no digit. */
  function FirstNumber(s: string): (r: Option<nat>)
    ensures r.None? <==> forall k :: 0 <= k < |s| ==> !IsDigit(s[k])
  {
    match FirstDigitRun(s)
    case None => None
    case Some((i, j)) => Some(DecimalValue(s[i..j]))
  }

  /** A rendered number surrounded by text without digits is found again. */
  lemma FirstNumberFindsRendered(pre: string, n: nat, post: string)
    requires forall k :: 0 <= k < |pre| ==> !IsDigit(pre[k])
    requires post == [] || !IsDigit(post[0])
    ensures FirstNumber(pre + NatToDecimal(n) + post) == Some(n)
  {
    var d := NatToDecimal(n);
    var s := pre + d + post;
    assert forall k :: 0 <= k < |pre| ==> s[k] == pre[k];
    assert forall k :: |pre| <= k < |pre| + |d| ==> s[k] == d[k - |pre|];
    assert IsDigit(s[|pre|]);
    assert |pre| + |d| == |s| || s[|pre| + |d|] == post[0];
    var run := FirstDigitRun(s);
    var (i, j) := run.value;
    assert i == |pre|;
    assert j == |pre| + |d|;
    assert s[i..j] == d;
    DecimalRoundTrip(n);
  }
}
