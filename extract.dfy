/** The readers `app/detector.py` applies to the output of `xprop` and `gdbus`:
    `_extract_quoted`, `_extract_last_quoted`, `_extract_pid` and
    `_extract_variant_map_value`. Each regular expression they use is modelled by the
    scan that Python's backtracking matcher effectively performs for that pattern. */
module ToolOutput {
  import opened Wrappers
  import opened Text

  const Quote: char := '"'
  const Apostrophe: char := '\''
  const Backslash: char := '\\'

  // ------------------------------------------------------------------ scanning helpers

  /** Index of the first `c` at or after `from`, or `|s|` when there is none. */
  function IndexFrom(s: string, c: char, from: nat): (i: nat)
    requires from <= |s|
    ensures from <= i <= |s|
    ensures i < |s| ==> s[i] == c
    decreases |s| - from
  {
    if from == |s| || s[from] == c then from else IndexFrom(s, c, from + 1)
  }

  /** No `c` comes before the index found. */
  lemma {:induction false} IndexFromIsFirst(s: string, c: char, from: nat)
    requires from <= |s|
    ensures forall k :: from <= k < IndexFrom(s, c, from) ==> s[k] != c
    decreases |s| - from
  {
    if from < |s| && s[from] != c {
      IndexFromIsFirst(s, c, from + 1);
    }
  }

  /** The first `c` at or after `from`, or the end when there is none, is what is found. */
  lemma {:induction false} IndexFromAt(s: string, c: char, from: nat, i: nat)
    requires from <= i <= |s| && (i == |s| || s[i] == c)
    requires forall k :: from <= k < i ==> s[k] != c
    ensures IndexFrom(s, c, from) == i
    decreases i - from
  {
    if from < i {
      IndexFromAt(s, c, from + 1, i);
    }
  }

  /** Index of the first line break at or after `from`, or `|s|`: how far `.` reaches. */
  function LineEnd(s: string, from: nat): (e: nat)
    requires from <= |s|
    ensures from <= e <= |s|
    ensures e == |s| || s[e] == '\n'
  {
    IndexFrom(s, '\n', from)
  }

  /** The last double quote in `s[lo..hi]`, if any. */
  function LastQuoteIn(s: string, lo: nat, hi: nat): (r: Option<nat>)
    requires lo <= hi <= |s|
    ensures r.Some? ==> lo <= r.value < hi && s[r.value] == Quote
    decreases hi - lo
  {
    if hi == lo then None
    else if s[hi - 1] == Quote then Some(hi - 1)
    else LastQuoteIn(s, lo, hi - 1)
  }

  /** The quote found is the last one in the range, and none is found only when the range
      holds no quote. */
  lemma {:induction false} LastQuoteInIsLast(s: string, lo: nat, hi: nat)
    requires lo <= hi <= |s|
    ensures LastQuoteIn(s, lo, hi).None? <==> forall k :: lo <= k < hi ==> s[k] != Quote
    ensures LastQuoteIn(s, lo, hi).Some? ==> forall k :: LastQuoteIn(s, lo, hi).value < k < hi ==> s[k] != Quote
    decreases hi - lo
  {
    if hi > lo && s[hi - 1] != Quote {
      LastQuoteInIsLast(s, lo, hi - 1);
    }
  }

  /** Removes every leading and every trailing `c`, as `str.strip(c)` does. */
  function StripChar(s: string, c: char): (r: string)
    ensures exists i :: OccursAt(r, s, i)
    ensures r == [] || (r[0] != c && r[|r| - 1] != c)
    decreases |s|
  {
    if s == [] then
      assert OccursAt(s, s, 0);
      []
    else if s[0] == c then
      var r := StripChar(s[1..], c);
      var i :| OccursAt(r, s[1..], i);
      OccursInTail(r, s, i);
      r
    else if s[|s| - 1] == c then
      var r := StripChar(s[..|s| - 1], c);
      var i :| OccursAt(r, s[..|s| - 1], i);
      OccursInInit(r, s, i);
      r
    else
      assert OccursAt(s, s, 0);
      s
  }

  /** A slice of `s[1..]` is a slice of `s`, one further on. */
  lemma OccursInTail(r: string, s: string, i: int)
    requires s != [] && OccursAt(r, s[1..], i)
    ensures OccursAt(r, s, i + 1)
  {
    assert s[1..][i..i + |r|] == s[i + 1..i + 1 + |r|];
  }

  /** A slice of `s` without its last element is a slice of `s`. */
  lemma OccursInInit(r: string, s: string, i: int)
    requires s != [] && OccursAt(r, s[..|s| - 1], i)
    ensures OccursAt(r, s, i)
  {
    assert s[..|s| - 1][i..i + |r|] == s[i..i + |r|];
  }

  lemma StripCharNoop(s: string, c: char)
    requires forall k :: 0 <= k < |s| ==> s[k] != c
    ensures StripChar(s, c) == s
  {
  }

  // ------------------------------------------------------------------ _extract_quoted

  /** Where the group of `"(.*)"` ends for an opening quote at `i`: the last double quote
      on the rest of the line, since `.` does not match a line break. */
  function CloseOf(s: string, i: nat): (r: Option<nat>)
    requires i < |s|
    ensures r.Some? ==> i < r.value < |s| && s[r.value] == Quote
  {
    LastQuoteIn(s, i + 1, LineEnd(s, i + 1))
  }

  /** `"(.*)"` matches at `i`. */
  predicate Opens(s: string, i: nat) {
    i < |s| && s[i] == Quote && CloseOf(s, i).Some?
  }

  /** `re.search(r'"(.*)"', s)`: the leftmost opening quote that has a closing quote on
      its line, and the last such closing quote. */
  function QuotedSpan(s: string, from: nat): (r: Option<(nat, nat)>)
    requires from <= |s|
    ensures r.Some? ==> from <= r.value.0 < r.value.1 < |s|
    ensures r.Some? ==> CloseOf(s, r.value.0) == Some(r.value.1)
    decreases |s| - from
  {
    if from == |s| then None
    else if Opens(s, from) then Some((from, CloseOf(s, from).value))
    else QuotedSpan(s, from + 1)
  }

  /** There is no span exactly when the pattern matches nowhere from `from` on. */
  lemma {:induction false} QuotedSpanNone(s: string, from: nat)
    requires from <= |s|
    ensures QuotedSpan(s, from).None? <==> forall i :: from <= i < |s| ==> !Opens(s, i)
    decreases |s| - from
  {
    if from == |s| {
    } else if Opens(s, from) {
      assert QuotedSpan(s, from).Some?;
    } else {
      assert QuotedSpan(s, from) == QuotedSpan(s, from + 1);
      QuotedSpanNone(s, from + 1);
      if QuotedSpan(s, from).None? {
        forall i | from <= i < |s| ensures !Opens(s, i) {
          if i == from {
            assert !Opens(s, from);
          }
        }
      }
    }
  }

  /** The span found opens at the leftmost position where the pattern matches. */
  lemma {:induction false} QuotedSpanIsLeftmost(s: string, from: nat)
    requires from <= |s| && QuotedSpan(s, from).Some?
    ensures Opens(s, QuotedSpan(s, from).value.0)
    ensures forall k :: from <= k < QuotedSpan(s, from).value.0 ==> !Opens(s, k)
    decreases |s| - from
  {
    if !Opens(s, from) {
      var r := QuotedSpan(s, from + 1);
      assert QuotedSpan(s, from) == r;
      QuotedSpanIsLeftmost(s, from + 1);
      forall k | from <= k < r.value.0 ensures !Opens(s, k) {
        if k == from {
          assert !Opens(s, from);
        }
      }
    }
  }

  /** `_extract_quoted`: the trimmed text between the first quote and the last quote on
      its line; failing that, what follows the first `=`, stripped of whitespace, then of
      double quotes, then of single quotes; failing that, the empty string. */
  function ExtractQuoted(text: string): (r: string)
    ensures |r| <= |text|
    ensures r != [] ==> QuotedSpan(text, 0).Some? || IndexFrom(text, '=', 0) < |text|
    ensures QuotedSpan(text, 0).Some? ==> r == [] || (!IsSpace(r[0]) && !IsSpace(r[|r| - 1]))
  {
    var span := QuotedSpan(text, 0);
    if span.Some? then
      Strip(text[span.value.0 + 1..span.value.1])
    else
      var eq := IndexFrom(text, '=', 0);
      if eq == |text| then []
      else StripChar(StripChar(Strip(text[eq + 1..]), Quote), Apostrophe)
  }

  /** `WM_NAME(STRING) = "…"`: when the first double quote of a line is at `i` and the
      line ends with a double quote, the text between the two is read back trimmed,
      whatever quotes it holds itself. */
  lemma ExtractQuotedReadsValue(s: string, i: nat)
    requires i + 1 < |s| && s[i] == Quote && s[|s| - 1] == Quote
    requires forall k :: 0 <= k < i ==> s[k] != Quote
    requires forall k :: i + 1 <= k < |s| ==> s[k] != '\n'
    ensures ExtractQuoted(s) == Strip(s[i + 1..|s| - 1])
  {
    FirstQuoteOpens(s, i);
    ExtractQuotedOfSpan(s, i, |s| - 1);
  }

  /** When the first quote has only a line's text after it up to a final quote, the group
      spans everything between the two. */
  lemma FirstQuoteOpens(s: string, i: nat)
    requires i + 1 < |s| && s[i] == Quote && s[|s| - 1] == Quote
    requires forall k :: 0 <= k < i ==> s[k] != Quote
    requires forall k :: i + 1 <= k < |s| ==> s[k] != '\n'
    ensures QuotedSpan(s, 0) == Some((i, |s| - 1))
  {
    assert LineEnd(s, i + 1) == |s|;
    assert CloseOf(s, i) == Some(|s| - 1);
    assert Opens(s, i);
    assert forall k :: 0 <= k < i ==> !Opens(s, k);
    QuotedSpanNone(s, 0);
    QuotedSpanIsLeftmost(s, 0);
  }

  /** The quoted group found is what is read. */
  lemma ExtractQuotedOfSpan(text: string, i: nat, j: nat)
    requires QuotedSpan(text, 0) == Some((i, j))
    ensures i < j <= |text| && ExtractQuoted(text) == Strip(text[i + 1..j])
  {
    assert CloseOf(text, i) == Some(j);
  }

  /** Without any double quote, the text after the first `=` is used. */
  lemma ExtractQuotedAfterEquals(prefix: string, value: string)
    requires forall k :: 0 <= k < |prefix| ==> prefix[k] != Quote && prefix[k] != '='
    requires forall k :: 0 <= k < |value| ==> value[k] != Quote
    ensures ExtractQuoted(prefix + "=" + value) == StripChar(Strip(value), Apostrophe)
  {
    var head := prefix + "=";
    var s := head + value;
    ConcatFacts(prefix, "=", head);
    ConcatFacts(head, value, s);
    assert s[|prefix| + 1..] == value;
    NoQuoteNoOpening(s);
    assert s[|prefix|] == head[|prefix|] == '=';
    IndexFromAt(s, '=', 0, |prefix|);
    assert ExtractQuoted(s) == StripChar(StripChar(Strip(value), Quote), Apostrophe);
    StripKeepsFree(value, Quote);
    StripCharNoop(Strip(value), Quote);
  }

  /** Stripping whitespace adds no character. */
  lemma StripKeepsFree(s: string, c: char)
    requires forall k :: 0 <= k < |s| ==> s[k] != c
    ensures forall k :: 0 <= k < |Strip(s)| ==> Strip(s)[k] != c
  {
    var r := Strip(s);
    var at := |s| - |TrimLeft(s)|;
    StripSlice(s);
    forall k | 0 <= k < |r| ensures r[k] != c {
      assert r[k] == s[at + k];
    }
  }

  /** Without a double quote nothing is quoted. */
  lemma NoQuoteNoOpening(s: string)
    requires forall k :: 0 <= k < |s| ==> s[k] != Quote
    ensures QuotedSpan(s, 0).None?
  {
    QuotedSpanNone(s, 0);
  }

  /** Text with neither a double quote nor `=` yields the empty string. */
  lemma ExtractQuotedNothing(text: string)
    requires forall k :: 0 <= k < |text| ==> text[k] != Quote && text[k] != '='
    ensures ExtractQuoted(text) == []
  {
    NoQuoteNoOpening(text);
  }

  // ------------------------------------------------------------------ _extract_last_quoted

  /** `re.findall(r'"([^"]+)"', s[from..])`: from each opening quote, the group runs to the
      next quote; an empty group does not match, and the search resumes at that next
      quote, which may open a group of its own. */
  function Groups(s: string, from: nat): (r: seq<string>)
    requires from <= |s|
    decreases |s| - from
  {
    var a := IndexFrom(s, Quote, from);
    if a == |s| then []
    else
      var b := IndexFrom(s, Quote, a + 1);
      if b == |s| then []
      else if b == a + 1 then Groups(s, b)
      else [s[a + 1..b]] + Groups(s, b + 1)
  }

  /** Every group is non-empty and holds no double quote. */
  predicate QuoteFreeGroups(groups: seq<string>) {
    forall g :: 0 <= g < |groups| ==>
      groups[g] != [] && forall k :: 0 <= k < |groups[g]| ==> groups[g][k] != Quote
  }

  /** Every group found is non-empty and holds no double quote, as `[^"]+` demands. */
  lemma {:induction false} GroupsAreQuoteFree(s: string, from: nat)
    requires from <= |s|
    ensures QuoteFreeGroups(Groups(s, from))
    decreases |s| - from
  {
    var a := IndexFrom(s, Quote, from);
    if a < |s| {
      var b := IndexFrom(s, Quote, a + 1);
      if b < |s| {
        if b == a + 1 {
          GroupsAreQuoteFree(s, b);
          GroupsSkipEmpty(s, from, a, b);
        } else {
          GroupsAreQuoteFree(s, b + 1);
          QuoteFreeStep(s, from, a, b);
        }
      }
    }
  }

  /** An empty group is passed over, the search resuming at its closing quote. */
  lemma GroupsSkipEmpty(s: string, from: nat, a: nat, b: nat)
    requires from <= |s| && a == IndexFrom(s, Quote, from) && a < |s|
    requires b == IndexFrom(s, Quote, a + 1) && b < |s| && b == a + 1
    ensures Groups(s, from) == Groups(s, b)
  {
  }

  /** A non-empty group found in front of quote-free groups keeps them all quote-free. */
  lemma QuoteFreeStep(s: string, from: nat, a: nat, b: nat)
    requires from <= |s| && a == IndexFrom(s, Quote, from) && a < |s|
    requires b == IndexFrom(s, Quote, a + 1) && b < |s| && b != a + 1
    requires QuoteFreeGroups(Groups(s, b + 1))
    ensures QuoteFreeGroups(Groups(s, from))
  {
    GroupsCons(s, from, a, b);
    IndexFromIsFirst(s, Quote, a + 1);
    QuoteFreeSlice(s, a + 1, b);
    QuoteFreeCons(s[a + 1..b], Groups(s, b + 1));
  }

  /** A slice between two quotes with none inside is a quote-free group. */
  lemma QuoteFreeSlice(s: string, lo: nat, hi: nat)
    requires lo < hi <= |s|
    requires forall k :: lo <= k < hi ==> s[k] != Quote
    ensures s[lo..hi] != [] && forall k :: 0 <= k < |s[lo..hi]| ==> s[lo..hi][k] != Quote
  {
    assert s[lo..hi][0] == s[lo];
  }

  /** Adding a quote-free group in front keeps every group quote-free. */
  lemma QuoteFreeCons(g: string, rest: seq<string>)
    requires g != [] && forall k :: 0 <= k < |g| ==> g[k] != Quote
    requires QuoteFreeGroups(rest)
    ensures QuoteFreeGroups([g] + rest)
  {
    forall i | 0 <= i < |[g] + rest|
      ensures ([g] + rest)[i] != [] && forall k :: 0 <= k < |([g] + rest)[i]| ==> ([g] + rest)[i][k] != Quote
    {
      if i > 0 {
        assert ([g] + rest)[i] == rest[i - 1];
      }
    }
  }

  /** One step of the group search that finds a non-empty group. */
  lemma GroupsCons(s: string, from: nat, a: nat, b: nat)
    requires from <= |s| && a == IndexFrom(s, Quote, from) && a < |s|
    requires b == IndexFrom(s, Quote, a + 1) && b < |s| && b != a + 1
    ensures Groups(s, from) == [s[a + 1..b]] + Groups(s, b + 1)
  {
  }

  /** `_extract_last_quoted`: the last non-empty quoted group, trimmed, or the empty string
      when there is none. */
  function ExtractLastQuoted(text: string): (r: string)
    ensures forall k :: 0 <= k < |r| ==> r[k] != Quote
    ensures r == [] || (!IsSpace(r[0]) && !IsSpace(r[|r| - 1]))
  {
    var groups := Groups(text, 0);
    if groups == [] then []
    else
      GroupsAreQuoteFree(text, 0);
      StripKeepsFree(groups[|groups| - 1], Quote);
      Strip(groups[|groups| - 1])
  }

  /** `WM_CLASS(STRING) = "instance", "Class"`: the class, the last of the two names, is
      what is read back. */
  lemma ExtractLastQuotedReadsClass(prefix: string, instance: string, wmClass: string)
    requires forall k :: 0 <= k < |prefix| ==> prefix[k] != Quote
    requires instance != [] && forall k :: 0 <= k < |instance| ==> instance[k] != Quote
    requires wmClass != [] && forall k :: 0 <= k < |wmClass| ==> wmClass[k] != Quote
    ensures ExtractLastQuoted(prefix + [Quote] + instance + [Quote] + ", " + [Quote] + wmClass + [Quote]) == Strip(wmClass)
  {
    var s := prefix + [Quote] + instance + [Quote] + ", " + [Quote] + wmClass + [Quote];
    var b1 := |prefix| + 1 + |instance|;
    ClassLineQuotes(prefix, instance, wmClass, s);
    TwoGroups(s, |prefix|, b1, b1 + 3, |s| - 1);
    assert s[b1 + 4..|s| - 1] == wmClass;
  }

  /** Where the four quotes of a `WM_CLASS` line stand, and what the second pair holds. */
  lemma ClassLineQuotes(prefix: string, instance: string, wmClass: string, s: string)
    requires forall k :: 0 <= k < |prefix| ==> prefix[k] != Quote
    requires instance != [] && forall k :: 0 <= k < |instance| ==> instance[k] != Quote
    requires wmClass != [] && forall k :: 0 <= k < |wmClass| ==> wmClass[k] != Quote
    requires s == prefix + [Quote] + instance + [Quote] + ", " + [Quote] + wmClass + [Quote]
    ensures |s| == |prefix| + |instance| + |wmClass| + 6
    ensures s[|prefix|] == Quote && s[|prefix| + 1 + |instance|] == Quote
    ensures s[|prefix| + 4 + |instance|] == Quote && s[|s| - 1] == Quote
    ensures forall k ::
      (0 <= k < |s| && k != |prefix| && k != |prefix| + 1 + |instance|
       && k != |prefix| + 4 + |instance| && k != |s| - 1) ==> s[k] != Quote
    ensures s[|prefix| + 5 + |instance|..|s| - 1] == wmClass
  {
    var first := prefix + [Quote] + instance + [Quote];
    var t := first + ", " + [Quote];
    QuotedFacts(prefix, instance, first);
    SeparatorFacts(first, t);
    ClosingQuoteFacts(t, wmClass, s);
    var b1 := |prefix| + 1 + |instance|;
    forall k | 0 <= k < |s| && k != |prefix| && k != b1 && k != b1 + 3 && k != |s| - 1
      ensures s[k] != Quote
    {
      if k < |first| {
        assert s[k] == t[k] == first[k];
        if k > |prefix| {
          assert first[k] == first[|prefix| + 1..|first| - 1][k - |prefix| - 1];
        }
      } else if k < |t| {
        assert s[k] == t[k];
      } else {
        assert s[k] == wmClass[k - |t|];
      }
    }
  }

  /** Where the characters of `first + ", \""` stand. */
  lemma SeparatorFacts(first: string, t: string)
    requires t == first + ", " + [Quote]
    ensures |t| == |first| + 3
    ensures forall k :: 0 <= k < |first| ==> t[k] == first[k]
    ensures t[|first|] == ',' && t[|first| + 1] == ' ' && t[|first| + 2] == Quote
  {
  }

  /** Where the characters of `t + value + "\""` stand. */
  lemma ClosingQuoteFacts(t: string, value: string, s: string)
    requires s == t + value + [Quote]
    ensures |s| == |t| + |value| + 1
    ensures forall k :: 0 <= k < |t| ==> s[k] == t[k]
    ensures forall k :: 0 <= k < |value| ==> s[|t| + k] == value[k]
    ensures s[|s| - 1] == Quote && s[|t|..|s| - 1] == value
  {
  }

  /** Where the quotes stand in `prefix + "\"" + value + "\""`. */
  lemma QuotedFacts(prefix: string, value: string, s: string)
    requires s == prefix + [Quote] + value + [Quote]
    ensures |s| == |prefix| + |value| + 2
    ensures forall k :: 0 <= k < |prefix| ==> s[k] == prefix[k]
    ensures s[|prefix|] == Quote && s[|s| - 1] == Quote
    ensures s[|prefix| + 1..|s| - 1] == value
  {
  }

  lemma ConcatFacts(a: string, b: string, s: string)
    requires s == a + b
    ensures |s| == |a| + |b|
    ensures forall k :: 0 <= k < |a| ==> s[k] == a[k]
    ensures forall k :: 0 <= k < |b| ==> s[|a| + k] == b[k]
    ensures forall i, j :: 0 <= i <= j <= |b| ==> s[|a| + i..|a| + j] == b[i..j]
  {
  }

  /** Two quoted groups with nothing quoted around them: the second is read back. */
  lemma TwoGroups(s: string, a1: nat, b1: nat, a2: nat, b2: nat)
    requires a1 + 1 < b1 < a2 && a2 + 1 < b2 == |s| - 1
    requires s[a1] == Quote && s[b1] == Quote && s[a2] == Quote && s[b2] == Quote
    requires forall k :: 0 <= k < |s| && k != a1 && k != b1 && k != a2 && k != b2 ==> s[k] != Quote
    ensures ExtractLastQuoted(s) == Strip(s[a2 + 1..b2])
  {
    QuoteFreeRanges(s, a1, b1, a2, b2);
    TwoGroupsOfRanges(s, a1, b1, a2, b2);
  }

  /** The same, from the quote-free stretches between the four quotes. */
  lemma TwoGroupsOfRanges(s: string, a1: nat, b1: nat, a2: nat, b2: nat)
    requires a1 + 1 < b1 < a2 && a2 + 1 < b2 == |s| - 1
    requires s[a1] == Quote && s[b1] == Quote && s[a2] == Quote && s[b2] == Quote
    requires forall k :: 0 <= k < a1 ==> s[k] != Quote
    requires forall k :: a1 < k < b1 ==> s[k] != Quote
    requires forall k :: b1 + 1 <= k < a2 ==> s[k] != Quote
    requires forall k :: a2 < k < b2 ==> s[k] != Quote
    requires forall k :: b2 + 1 <= k < |s| ==> s[k] != Quote
    ensures ExtractLastQuoted(s) == Strip(s[a2 + 1..b2])
  {
    var g1, g2 := s[a1 + 1..b1], s[a2 + 1..b2];
    NoMoreGroups(s, b2 + 1);
    GroupAt(s, b1 + 1, a2, b2);
    assert Groups(s, b1 + 1) == [g2];
    GroupAt(s, 0, a1, b1);
    assert Groups(s, 0) == [g1, g2];
  }

  /** The stretches between four quotes hold no quote. */
  lemma QuoteFreeRanges(s: string, a1: nat, b1: nat, a2: nat, b2: nat)
    requires a1 + 1 < b1 < a2 && a2 + 1 < b2 == |s| - 1
    requires forall k :: 0 <= k < |s| && k != a1 && k != b1 && k != a2 && k != b2 ==> s[k] != Quote
    ensures forall k :: 0 <= k < a1 ==> s[k] != Quote
    ensures forall k :: a1 < k < b1 ==> s[k] != Quote
    ensures forall k :: b1 + 1 <= k < a2 ==> s[k] != Quote
    ensures forall k :: a2 < k < b2 ==> s[k] != Quote
    ensures forall k :: b2 + 1 <= k < |s| ==> s[k] != Quote
  {
  }

  /** A quoted non-empty group is the next one found. */
  lemma GroupAt(s: string, from: nat, a: nat, b: nat)
    requires from <= a && a + 1 < b < |s|
    requires s[a] == Quote && s[b] == Quote
    requires forall k :: from <= k < a ==> s[k] != Quote
    requires forall k :: a < k < b ==> s[k] != Quote
    ensures Groups(s, from) == [s[a + 1..b]] + Groups(s, b + 1)
  {
    IndexFromAt(s, Quote, from, a);
    IndexFromAt(s, Quote, a + 1, b);
  }

  /** Past the last quote no group is found. */
  lemma NoMoreGroups(s: string, from: nat)
    requires from <= |s|
    requires forall k :: from <= k < |s| ==> s[k] != Quote
    ensures Groups(s, from) == []
  {
    assert IndexFrom(s, Quote, from) == |s|;
  }

  /** Text without a double quote yields the empty string. */
  lemma ExtractLastQuotedNothing(text: string)
    requires forall k :: 0 <= k < |text| ==> text[k] != Quote
    ensures ExtractLastQuoted(text) == []
  {
    assert IndexFrom(text, Quote, 0) == |text|;
  }

  // ------------------------------------------------------------------ _extract_pid

  /** `_extract_pid`: the first run of decimal digits as a number, or `None`. */
  function ExtractPid(text: string): (r: Option<nat>)
    ensures r.None? <==> forall k :: 0 <= k < |text| ==> !IsDigit(text[k])
  {
    FirstNumber(text)
  }

  /** `_NET_WM_PID(CARDINAL) = 4242`: the rendered process id is read back, and text
      without digits gives `None`. */
  lemma ExtractPidReadsPid(prefix: string, pid: nat)
    requires forall k :: 0 <= k < |prefix| ==> !IsDigit(prefix[k])
    ensures ExtractPid(prefix + NatToDecimal(pid)) == Some(pid)
    ensures ExtractPid(prefix) == None
  {
    FirstNumberFindsRendered(prefix, pid, []);
    assert prefix + NatToDecimal(pid) + [] == prefix + NatToDecimal(pid);
  }

  // ------------------------------------------------------------------ _extract_variant_map_value

  /** Index of the first non-whitespace character at or after `from`: how far `\s*` reaches. */
  function SpacesEnd(s: string, from: nat): (e: nat)
    requires from <= |s|
    ensures from <= e <= |s|
    ensures e == |s| || !IsSpace(s[e])
    ensures forall k :: from <= k < e ==> IsSpace(s[k])
    decreases |s| - from
  {
    if from < |s| && IsSpace(s[from]) then SpacesEnd(s, from + 1) else from
  }

  /** The pattern's head `'key'\s*:\s*<'` at `start`: where the value begins. */
  function HeadAt(s: string, key: string, start: nat): (r: Option<nat>)
    ensures r.Some? ==> start + |key| + 4 <= r.value <= |s|
    ensures r.Some? ==> start < |s| && s[start] == Apostrophe
  {
    var open := [Apostrophe] + key + [Apostrophe];
    if start + |open| <= |s| && s[start..start + |open|] == open then
      assert s[start] == s[start..start + |open|][0];
      var colon := SpacesEnd(s, start + |open|);
      if colon < |s| && s[colon] == ':' then
        var angle := SpacesEnd(s, colon + 1);
        if angle + 2 <= |s| && s[angle] == '<' && s[angle + 1] == Apostrophe then Some(angle + 2)
        else None
      else None
    else None
  }

  /** Where the value group `(?:\\'|[^'])*` followed by `'>` ends when it starts at `p`.
      The greedy loop reads `\'` as one unit and any other non-quote character as one; it
      stops at the first bare quote. Backtracking then tries the closing `'>` at that
      quote and, going backwards, at the quote of each `\'` read on the way: the match is
      the last of these positions that is followed by `>`. `best` is the last such
      position seen so far. */
  function ValueEnd(s: string, p: nat, best: Option<nat>): (r: Option<nat>)
    requires p <= |s|
    requires best.Some? ==> best.value < p
    ensures r.Some? ==>
      r == best || (p <= r.value && r.value + 1 < |s| && s[r.value] == Apostrophe && s[r.value + 1] == '>')
    decreases |s| - p
  {
    if p == |s| then best
    else if s[p] == Backslash && p + 1 < |s| && s[p + 1] == Apostrophe then
      ValueEnd(s, p + 2, NextBest(s, p, best))
    else if s[p] == Apostrophe then
      if p + 1 < |s| && s[p + 1] == '>' then Some(p) else best
    else ValueEnd(s, p + 1, best)
  }

  /** `re.search` of the whole pattern: the leftmost start where the head matches and the
      value finds its closing `'>`, with the value's bounds. */
  function SearchValue(s: string, key: string, start: nat): (r: Option<(nat, nat)>)
    requires start <= |s|
    ensures r.Some? ==> r.value.0 <= r.value.1 < |s|
    decreases |s| - start
  {
    var found :=
      match HeadAt(s, key, start)
      case None => None
      case Some(b) =>
        match ValueEnd(s, b, None)
        case None => None
        case Some(c) => Some((b, c));
    if found.Some? then found
    else if start == |s| then None
    else SearchValue(s, key, start + 1)
  }

  /** `str.replace("\\'", "'")`: each escaped apostrophe, read left to right, becomes a
      plain one. */
  function Unescape(g: string): (r: string)
    ensures |r| <= |g|
    decreases |g|
  {
    if g == [] then []
    else if |g| >= 2 && g[0] == Backslash && g[1] == Apostrophe then [Apostrophe] + Unescape(g[2..])
    else [g[0]] + Unescape(g[1..])
  }

  /** How `gdbus` writes a string inside a variant: each apostrophe escaped. */
  function Escape(v: string): (r: string)
    ensures |r| >= |v|
    decreases |v|
  {
    if v == [] then []
    else if v[0] == Apostrophe then [Backslash, Apostrophe] + Escape(v[1..])
    else [v[0]] + Escape(v[1..])
  }

  /** `_extract_variant_map_value`: the trimmed, unescaped value of `'key': <'…'>`, or the
      empty string when the text holds no such entry. */
  function ExtractVariantMapValue(text: string, key: string): (r: string)
    ensures SearchValue(text, key, 0).None? ==> r == []
    ensures r == [] || (!IsSpace(r[0]) && !IsSpace(r[|r| - 1]))
  {
    var span := SearchValue(text, key, 0);
    if span.None? then [] else Strip(Unescape(text[span.value.0..span.value.1]))
  }

  /** Unescaping undoes escaping for values without a backslash. */
  lemma {:induction false} UnescapeEscape(v: string)
    requires forall k :: 0 <= k < |v| ==> v[k] != Backslash
    ensures Unescape(Escape(v)) == v
    decreases |v|
  {
    if v != [] {
      UnescapeEscape(v[1..]);
      if v[0] == Apostrophe {
        assert Escape(v)[2..] == Escape(v[1..]);
      } else {
        var e := Escape(v);
        assert e[1..] == Escape(v[1..]);
        if |e| >= 2 {
          assert e[0] == v[0] && e[0] != Backslash;
        }
      }
    }
  }

  /** The value scan over an escaped value stops at the quote that closes it, at `c`. */
  lemma {:induction false} ValueEndOverEscaped(s: string, p: nat, v: string, c: nat, best: Option<nat>)
    requires forall k :: 0 <= k < |v| ==> v[k] != Backslash
    requires c == p + |Escape(v)| && c + 2 <= |s|
    requires s[p..c] == Escape(v)
    requires s[c] == Apostrophe && s[c + 1] == '>'
    requires best.Some? ==> best.value < p
    ensures ValueEnd(s, p, best) == Some(c)
    decreases |v|
  {
    if v == [] {
      ValueEndAtClose(s, p, best);
    } else if v[0] == Apostrophe {
      EscapedQuoteStep(s, p, v, c, best);
      ValueEndOverEscaped(s, p + 2, v[1..], c, NextBest(s, p, best));
    } else {
      EscapedPlainStep(s, p, v, c, best);
      ValueEndOverEscaped(s, p + 1, v[1..], c, best);
    }
  }

  /** What the scan remembers after stepping over an escaped apostrophe at `p`. */
  function NextBest(s: string, p: nat, best: Option<nat>): (r: Option<nat>)
    ensures r == best || r == Some(p + 1)
  {
    if p + 2 < |s| && s[p + 2] == '>' then Some(p + 1) else best
  }

  /** Over an escaped apostrophe, the scan moves two places on to the rest of the value. */
  lemma EscapedQuoteStep(s: string, p: nat, v: string, c: nat, best: Option<nat>)
    requires v != [] && v[0] == Apostrophe
    requires c == p + |Escape(v)| && c + 2 <= |s|
    requires s[p..c] == Escape(v)
    requires best.Some? ==> best.value < p
    ensures c == p + 2 + |Escape(v[1..])|
    ensures s[p + 2..c] == Escape(v[1..])
    ensures ValueEnd(s, p, best) == ValueEnd(s, p + 2, NextBest(s, p, best))
  {
    var e := Escape(v);
    assert e == [Backslash, Apostrophe] + Escape(v[1..]);
    SliceAfter(s, p, e, 2);
    ValueEndSkipsEscape(s, p, best);
  }

  /** Over any other character of the value, the scan moves one place on. */
  lemma EscapedPlainStep(s: string, p: nat, v: string, c: nat, best: Option<nat>)
    requires v != [] && v[0] != Apostrophe && v[0] != Backslash
    requires c == p + |Escape(v)| && c + 2 <= |s|
    requires s[p..c] == Escape(v)
    requires best.Some? ==> best.value < p
    ensures c == p + 1 + |Escape(v[1..])|
    ensures s[p + 1..c] == Escape(v[1..])
    ensures ValueEnd(s, p, best) == ValueEnd(s, p + 1, best)
  {
    var e := Escape(v);
    assert e == [v[0]] + Escape(v[1..]);
    SliceAfter(s, p, e, 1);
    ValueEndSkipsPlain(s, p, best);
  }

  /** The scan stops at a `'>` it reaches. */
  lemma ValueEndAtClose(s: string, p: nat, best: Option<nat>)
    requires p + 1 < |s| && s[p] == Apostrophe && s[p + 1] == '>'
    requires best.Some? ==> best.value < p
    ensures ValueEnd(s, p, best) == Some(p)
  {
  }

  /** The scan steps over an escaped apostrophe, remembering it when `>` follows it. */
  lemma ValueEndSkipsEscape(s: string, p: nat, best: Option<nat>)
    requires p + 1 < |s| && s[p] == Backslash && s[p + 1] == Apostrophe
    requires best.Some? ==> best.value < p
    ensures ValueEnd(s, p, best) == ValueEnd(s, p + 2, NextBest(s, p, best))
  {
  }

  /** The scan steps over any other character. */
  lemma ValueEndSkipsPlain(s: string, p: nat, best: Option<nat>)
    requires p < |s| && s[p] != Backslash && s[p] != Apostrophe
    requires best.Some? ==> best.value < p
    ensures ValueEnd(s, p, best) == ValueEnd(s, p + 1, best)
  {
  }

  /** Where `e` is the slice of `s` at `p`, its first `d` characters are those of `s` at
      `p`, and the rest is the slice at `p + d`. */
  lemma SliceAfter(s: string, p: nat, e: string, d: nat)
    requires p + |e| <= |s| && s[p..p + |e|] == e && d <= |e|
    ensures forall k :: 0 <= k < d ==> s[p + k] == e[k]
    ensures s[p + d..p + |e|] == e[d..]
  {
    forall k | 0 <= k < d ensures s[p + k] == e[k] {
      assert s[p..p + |e|][k] == s[p + k];
    }
  }

  /** How `gdbus` prints one entry of a string-valued map: `'key': <'escaped'>`. */
  function Entry(key: string, escaped: string): (r: string)
    ensures |r| == |key| + |escaped| + 8
  {
    [Apostrophe] + key + "': <'" + escaped + "'>"
  }

  /** `({'caption': <'Título'>, …},)`: a value escaped as `gdbus` prints it is read back
      trimmed, when nothing before its entry is an apostrophe. */
  lemma VariantValueRoundTrip(prefix: string, key: string, v: string, suffix: string)
    requires forall k :: 0 <= k < |prefix| ==> prefix[k] != Apostrophe
    requires forall k :: 0 <= k < |v| ==> v[k] != Backslash
    ensures ExtractVariantMapValue(prefix + Entry(key, Escape(v)) + suffix, key) == Strip(v)
  {
    var entry := Entry(key, Escape(v));
    var s := prefix + entry + suffix;
    EntryInText(prefix, entry, suffix, s);
    ReadEntryAt(s, key, |prefix|, v);
  }

  /** Where the middle part of `prefix + entry + suffix` stands. */
  lemma EntryInText(prefix: string, entry: string, suffix: string, s: string)
    requires s == prefix + entry + suffix
    ensures |prefix| + |entry| <= |s|
    ensures s[|prefix|..|prefix| + |entry|] == entry
    ensures forall k :: 0 <= k < |prefix| ==> s[k] == prefix[k]
  {
    ConcatFacts(prefix + entry, suffix, s);
    ConcatFacts(prefix, entry, prefix + entry);
    assert s[|prefix|..|prefix| + |entry|] == (prefix + entry)[|prefix|..|prefix| + |entry|];
  }

  /** An entry whose value is escaped as `gdbus` prints it, with no apostrophe before it,
      is the one read. */
  lemma ReadEntryAt(s: string, key: string, st: nat, v: string)
    requires forall k :: 0 <= k < |v| ==> v[k] != Backslash
    requires st + |Entry(key, Escape(v))| <= |s|
    requires s[st..st + |Entry(key, Escape(v))|] == Entry(key, Escape(v))
    requires forall k :: 0 <= k < st ==> s[k] != Apostrophe
    ensures ExtractVariantMapValue(s, key) == Strip(v)
  {
    EntryLayout(s, key, st, Escape(v));
    var b := st + |key| + 6;
    var c := b + |Escape(v)|;
    ReadLaidOutEntry(s, key, st, v, b, c);
  }

  /** The entry `'key': <'escaped v'>` stands at `st` with its value at `b..c`, no
      apostrophe comes before it, and `v` holds no backslash. */
  predicate LaidOutEntry(s: string, key: string, st: nat, v: string, b: nat, c: nat) {
    && (forall k :: 0 <= k < |v| ==> v[k] != Backslash)
    && b == st + |key| + 6 && c == b + |Escape(v)|
    && EntryShape(s, key, st, Escape(v))
    && (forall k :: 0 <= k < st ==> s[k] != Apostrophe)
  }

  /** Where the parts of the entry `'key': <'e'>` stand when it starts at `st`. */
  predicate EntryShape(s: string, key: string, st: nat, e: string) {
    && st + |key| + 6 + |e| + 2 <= |s|
    && s[st..st + |key| + 6] == [Apostrophe] + key + "': <'"
    && s[st + |key| + 6..st + |key| + 6 + |e|] == e
    && s[st + |key| + 6 + |e|] == Apostrophe && s[st + |key| + 6 + |e| + 1] == '>'
  }

  /** The same, from where the head, the escaped value and the closing `'>` stand. */
  lemma ReadLaidOutEntry(s: string, key: string, st: nat, v: string, b: nat, c: nat)
    requires LaidOutEntry(s, key, st, v, b, c)
    ensures ExtractVariantMapValue(s, key) == Strip(v)
  {
    SpanOfLaidOutEntry(s, key, st, v, b, c);
    UnescapeLaidOut(s, key, st, v, b, c);
    ExtractFromSpan(s, key, b, c, v);
  }

  /** The value span of an entry unescapes to the value. */
  lemma UnescapeLaidOut(s: string, key: string, st: nat, v: string, b: nat, c: nat)
    requires LaidOutEntry(s, key, st, v, b, c)
    ensures b <= c <= |s| && Unescape(s[b..c]) == v
  {
    UnescapeEscape(v);
  }

  /** The search finds the value span of the first entry. */
  lemma SpanOfLaidOutEntry(s: string, key: string, st: nat, v: string, b: nat, c: nat)
    requires LaidOutEntry(s, key, st, v, b, c)
    ensures SearchValue(s, key, 0) == Some((b, c))
  {
    HeadOfEntry(s, key, st);
    ValueEndOverEscaped(s, b, v, c, None);
    FoundAfterNoHead(s, key, st, b, c);
  }

  /** A search from the start finds the first place where the head and the closing `'>`
      are both found, when no apostrophe comes before it. */
  lemma FoundAfterNoHead(s: string, key: string, st: nat, b: nat, c: nat)
    requires st <= |s| && HeadAt(s, key, st) == Some(b) && ValueEnd(s, b, None) == Some(c)
    requires forall k :: 0 <= k < st ==> s[k] != Apostrophe
    ensures SearchValue(s, key, 0) == Some((b, c))
  {
    SearchFinds(s, key, st, b, c);
    NoHeadBefore(s, key, st);
    SearchSkips(s, key, 0, st);
  }

  /** The value read is the unescaped, trimmed text of the span the search found. */
  lemma ExtractFromSpan(s: string, key: string, b: nat, c: nat, v: string)
    requires SearchValue(s, key, 0) == Some((b, c))
    requires Unescape(s[b..c]) == v
    ensures ExtractVariantMapValue(s, key) == Strip(v)
  {
  }

  /** Where the parts of an entry stand in the text that holds it. */
  lemma EntryLayout(s: string, key: string, st: nat, e: string)
    requires st + |Entry(key, e)| <= |s|
    requires s[st..st + |Entry(key, e)|] == Entry(key, e)
    ensures EntryShape(s, key, st, e)
  {
    var head := [Apostrophe] + key + "': <'";
    var entry := Entry(key, e);
    var b := st + |head|;
    var window := s[st..st + |entry|];
    assert entry == head + e + "'>";
    forall k | 0 <= k < |head| ensures s[st + k] == head[k] {
      assert s[st + k] == window[k] == entry[k];
    }
    assert s[st..b] == head;
    forall k | 0 <= k < |e| ensures s[b + k] == e[k] {
      assert s[b + k] == window[|head| + k] == entry[|head| + k];
    }
    assert s[b..b + |e|] == e;
    assert s[b + |e|] == window[|head| + |e|] == Apostrophe;
    assert s[b + |e| + 1] == window[|head| + |e| + 1] == '>';
  }

  /** The search stops at a start where the head and the closing `'>` are both found. */
  lemma SearchFinds(s: string, key: string, st: nat, b: nat, c: nat)
    requires st <= |s| && HeadAt(s, key, st) == Some(b) && ValueEnd(s, b, None) == Some(c)
    ensures SearchValue(s, key, st) == Some((b, c))
  {
  }

  /** No head starts before the first apostrophe. */
  lemma NoHeadBefore(s: string, key: string, st: nat)
    requires st <= |s|
    requires forall k :: 0 <= k < st ==> s[k] != Apostrophe
    ensures forall k: nat :: k < st ==> HeadAt(s, key, k).None?
  {
  }

  /** The head of an entry `'key': <'` is recognised where it stands. */
  lemma HeadOfEntry(s: string, key: string, st: nat)
    requires st + |key| + 6 <= |s|
    requires s[st..st + |key| + 6] == [Apostrophe] + key + "': <'"
    ensures HeadAt(s, key, st) == Some(st + |key| + 6)
  {
    var head := [Apostrophe] + key + "': <'";
    var open := [Apostrophe] + key + [Apostrophe];
    var n := |open|;
    assert head[..n] == open;
    assert s[st..st + n] == head[..n];
    assert s[st + n] == head[n] == ':';
    assert SpacesEnd(s, st + n) == st + n;
    assert s[st + n + 1] == head[n + 1] == ' ';
    assert s[st + n + 2] == head[n + 2] == '<';
    assert s[st + n + 3] == head[n + 3] == Apostrophe;
    assert SpacesEnd(s, st + n + 1) == st + n + 2;
  }

  /** The search passes over starts where the head does not match. */
  lemma {:induction false} SearchSkips(s: string, key: string, from: nat, start: nat)
    requires from <= start <= |s|
    requires forall k :: from <= k < start ==> HeadAt(s, key, k).None?
    ensures SearchValue(s, key, from) == SearchValue(s, key, start)
    decreases start - from
  {
    if from < start {
      SearchSkips(s, key, from + 1, start);
    }
  }

  /** Text without the quoted key yields the empty string. */
  lemma VariantValueAbsent(text: string, key: string)
    requires forall k :: 0 <= k < |text| ==> text[k] != Apostrophe
    ensures ExtractVariantMapValue(text, key) == []
  {
    NoHeadBefore(text, key, |text|);
    SearchSkips(text, key, 0, |text|);
  }
}
