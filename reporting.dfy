/** The report helpers of `app/main.py`: boolean query parsing, duration formatting,
    clipping stored sessions to a report range, the AFK and category labels, the sorted
    payloads, the totals of `_build_overview` and the live open segment that
    `collect_segments` adds to a report. */
module Reporting {
  import opened Wrappers
  import opened Text
  import opened Sorting
  import opened Tally
  import opened SessionStore
  import Tracker
  import opened Privacy

  // ---------------------------------------------------------------- _parse_bool

  predicate IsTrueWord(v: string) { v == "1" || v == "true" || v == "yes" || v == "on" }
  predicate IsFalseWord(v: string) { v == "0" || v == "false" || v == "no" || v == "off" }

  /** What a trimmed, lower-cased value means: one of the known words decides, anything
      else leaves the default. */
  function ParseWord(v: string, default: bool): (r: bool)
    ensures IsTrueWord(v) ==> r
    ensures IsFalseWord(v) ==> !r
    ensures r != default ==> if r then IsTrueWord(v) else IsFalseWord(v)
  {
    if IsTrueWord(v) then true else if IsFalseWord(v) then false else default
  }

  /** `_parse_bool(raw, default)`: a missing value gives the default; otherwise the
      trimmed, lower-cased value is read as a word. */
  function ParseBool(raw: Option<string>, default: bool): (r: bool)
    ensures raw.None? ==> r == default
    ensures raw.Some? ==> r == ParseWord(Lower(Strip(raw.value)), default)
  {
    if raw.None? then default else ParseWord(Lower(Strip(raw.value)), default)
  }

  /** Surrounding whitespace never changes the parsed value. */
  lemma ParseBoolIgnoresPadding(s: string, default: bool)
    ensures ParseBool(Some(Strip(s)), default) == ParseBool(Some(s), default)
  {
    StripIdempotent(s);
    assert Lower(Strip(Strip(s))) == Lower(Strip(s));
  }

  /** No word is read both ways. */
  lemma TrueAndFalseWordsDisjoint(v: string)
    ensures !(IsTrueWord(v) && IsFalseWord(v))
  {
  }

  // ----------------------------------------------------------- _seconds_to_human

  /** `divmod` of the clamped total into hours, minutes and seconds. */
  function Clock(totalSeconds: int): (c: (nat, nat, nat))
    ensures c.1 < 60 && c.2 < 60
    ensures c.0 * 3600 + c.1 * 60 + c.2 == if totalSeconds < 0 then 0 else totalSeconds
  {
    var total := if totalSeconds < 0 then 0 else totalSeconds;
    (total / 3600, total % 3600 / 60, total % 3600 % 60)
  }

  /** `_seconds_to_human`: "Hh MMm" from one hour on, "Mm SSs" from one minute on, "Ss"
      below; negative totals read as zero. */
  function SecondsToHuman(totalSeconds: int): (r: string)
    ensures |r| >= 2
  {
    var (h, m, s) := Clock(totalSeconds);
    if h > 0 then NatToDecimal(h) + "h " + Pad2(m) + "m"
    else if m > 0 then NatToDecimal(m) + "m " + Pad2(s) + "s"
    else NatToDecimal(s) + "s"
  }

  /** Reading the text back: the first number is the leading unit, the unit letter at the
      end says which form was used, and the two digits before it are the next unit. From
      one hour on the seconds are dropped; below one hour nothing is lost. */
  lemma HumanReadsBack(totalSeconds: int)
    ensures var r := SecondsToHuman(totalSeconds);
      var total := if totalSeconds < 0 then 0 else totalSeconds;
      && FirstNumber(r).Some?
      && (total >= 3600 ==>
            r[|r| - 1] == 'm' && AllDigits(r[|r| - 3..|r| - 1])
            && var low := FirstNumber(r).value * 3600 + DecimalValue(r[|r| - 3..|r| - 1]) * 60;
               low <= total < low + 60)
      && (60 <= total < 3600 ==>
            r[|r| - 1] == 's' && AllDigits(r[|r| - 3..|r| - 1])
            && FirstNumber(r).value * 60 + DecimalValue(r[|r| - 3..|r| - 1]) == total)
      && (total < 60 ==> r[|r| - 1] == 's' && FirstNumber(r).value == total)
  {
    var r := SecondsToHuman(totalSeconds);
    var (h, m, s) := Clock(totalSeconds);
    if h > 0 {
      var tail := "h " + Pad2(m) + "m";
      assert r == [] + NatToDecimal(h) + tail;
      FirstNumberFindsRendered([], h, tail);
      assert r[|r| - 3..|r| - 1] == Pad2(m);
    } else if m > 0 {
      var tail := "m " + Pad2(s) + "s";
      assert r == [] + NatToDecimal(m) + tail;
      FirstNumberFindsRendered([], m, tail);
      assert r[|r| - 3..|r| - 1] == Pad2(s);
    } else {
      assert r == [] + NatToDecimal(s) + "s";
      FirstNumberFindsRendered([], s, "s");
    }
  }

  // --------------------------------------------------------------- _clip_segment

  /** `Segment`: a piece of activity inside a report range. */
  datatype ReportSegment = ReportSegment(app: string, title: string, source: string, startTs: int, endTs: int)

  function Max(a: int, b: int): int { if a < b then b else a }
  function Min(a: int, b: int): int { if a < b then a else b }

  /** `_clip_segment`: the part of the row inside `[rangeStart, rangeEnd)`, or `None`
      when nothing of it remains. */
  function ClipSegment(row: SessionRow, rangeStart: int, rangeEnd: int): (r: Option<ReportSegment>)
    ensures r.None? <==> Min(row.endTs, rangeEnd) <= Max(row.startTs, rangeStart)
    ensures r.Some? ==>
      && rangeStart <= r.value.startTs < r.value.endTs <= rangeEnd
      && row.startTs <= r.value.startTs && r.value.endTs <= row.endTs
      && r.value.app == row.app && r.value.title == row.title && r.value.source == row.source
  {
    var startTs := Max(row.startTs, rangeStart);
    var endTs := Min(row.endTs, rangeEnd);
    if endTs <= startTs then None
    else Some(ReportSegment(row.app, row.title, row.source, startTs, endTs))
  }

  /** Clipping is intersection: an instant lies in the clipped segment iff it lies in the
      row's interval and in the range. */
  lemma ClipIsIntersection(row: SessionRow, rangeStart: int, rangeEnd: int, x: int)
    ensures var r := ClipSegment(row, rangeStart, rangeEnd);
      (r.Some? && r.value.startTs <= x < r.value.endTs)
        <==> (row.startTs <= x < row.endTs && rangeStart <= x < rangeEnd)
  {
  }

  // ------------------------------------------------ _is_afk_label, _category_for_app

  predicate IsAfkWord(folded: string) { folded == "inactivo" || folded == "idle" || folded == "afk" }

  /** `_is_afk_label`. */
  predicate IsAfkLabel(appLabel: string)
    ensures IsAfkLabel(appLabel) ==> !Tracker.IsPlaceholderApp(Lower(Strip(appLabel)))
  {
    IsAfkWord(Lower(Strip(appLabel)))
  }

  const AfkCategory := "Inactividad"
  const UnidentifiedCategory := "No identificado"
  const DefaultCategory := "Sin categoría"

  /** `_category_for_app`: AFK labels first, then the unidentified placeholders, then the
      category map on the trimmed label with a default. */
  function CategoryForApp(appLabel: string, categories: map<string, string>): (r: string)
    ensures IsAfkLabel(appLabel) ==> r == AfkCategory
    ensures !IsAfkLabel(appLabel) && Tracker.IsPlaceholderApp(Lower(Strip(appLabel))) ==> r == UnidentifiedCategory
    ensures !IsAfkLabel(appLabel) && !Tracker.IsPlaceholderApp(Lower(Strip(appLabel))) ==>
      r == if Strip(appLabel) in categories then categories[Strip(appLabel)] else DefaultCategory
  {
    var app := Strip(appLabel);
    StripIdempotent(appLabel);
    if IsAfkLabel(app) then AfkCategory
    else if Tracker.IsPlaceholderApp(Lower(app)) then UnidentifiedCategory
    else if app in categories then categories[app] else DefaultCategory
  }

  /** The category depends on the trimmed label only. */
  lemma CategoryIgnoresPadding(appLabel: string, categories: map<string, string>)
    ensures CategoryForApp(Strip(appLabel), categories) == CategoryForApp(appLabel, categories)
  {
    StripIdempotent(appLabel);
  }

  /** No label is both AFK and an unidentified placeholder, so the order of the first two
      checks never matters. */
  lemma AfkAndPlaceholderDisjoint(folded: string)
    ensures !(IsAfkWord(folded) && Tracker.IsPlaceholderApp(folded))
  {
  }

  // --------------------------------------------------------------- _sorted_payload

  /** One entry of a payload list (the percentage is not modelled). */
  datatype PayloadRow = PayloadRow(app: string, seconds: int, human: string)

  function NegSeconds(e: (string, int)): int { -e.1 }

  function ToRow(e: (string, int)): PayloadRow { PayloadRow(e.0, e.1, SecondsToHuman(e.1)) }

  /** The dictionary entries a payload lists. */
  function RowEntries(rows: seq<PayloadRow>): (r: seq<(string, int)>)
    ensures |r| == |rows|
    ensures forall i :: 0 <= i < |rows| ==> r[i] == (rows[i].app, rows[i].seconds)
  {
    seq(|rows|, i requires 0 <= i < |rows| => (rows[i].app, rows[i].seconds))
  }

  /** `_sorted_payload`: the entries by seconds, largest first (ties keep insertion order),
      each with its human-readable duration; the rows list the entries of `byKey`, each
      as often as it occurs there. */
  function SortedPayload(byKey: Tally): (r: seq<PayloadRow>)
    ensures |r| == |byKey|
    ensures forall i, j :: 0 <= i < j < |r| ==> r[i].seconds >= r[j].seconds
    ensures forall i :: 0 <= i < |r| ==> r[i].human == SecondsToHuman(r[i].seconds)
    ensures multiset(RowEntries(r)) == multiset(byKey)
  {
    var sorted := SortBy(byKey, NegSeconds);
    var r := seq(|sorted|, i requires 0 <= i < |sorted| => ToRow(sorted[i]));
    assert RowEntries(r) == sorted;
    r
  }

  // -------------------------------------------------------- _build_overview totals

  function Duration(s: ReportSegment): int { s.endTs - s.startTs }

  /** `is_unattributed`: a placeholder app with an empty title. */
  predicate IsUnattributed(s: ReportSegment) {
    Tracker.IsPlaceholderApp(Lower(Strip(s.app))) && Strip(s.title) == []
  }

  /** How one segment counts in the totals: its seconds, whether its label is an AFK
      label, whether it is unattributed, its trimmed app label and that label's
      category. */
  datatype Share = Share(seconds: int, afk: bool, unattributed: bool, app: string, category: string)

  function ShareOf(s: ReportSegment, categories: map<string, string>): Share {
    var app := Strip(s.app);
    Share(Duration(s), IsAfkLabel(app), IsUnattributed(s), app, CategoryForApp(app, categories))
  }

  function Shares(segments: seq<ReportSegment>, categories: map<string, string>): (r: seq<Share>)
    ensures |r| == |segments|
  {
    seq(|segments|, i requires 0 <= i < |segments| => ShareOf(segments[i], categories))
  }

  /** The seconds a share adds to the AFK total, to the unattributed total, and under
      the label `app`. */
  function AfkPart(sh: Share): int { if sh.afk then sh.seconds else 0 }
  function UnattributedPart(sh: Share): int { if sh.unattributed then sh.seconds else 0 }
  function AppPart(sh: Share, app: string): int {
    if !sh.unattributed && sh.app == app then sh.seconds else 0
  }

  /** Seconds of all segments. */
  function TotalOf(shares: seq<Share>): int
    decreases |shares|
  {
    if shares == [] then 0
    else TotalOf(shares[..|shares| - 1]) + shares[|shares| - 1].seconds
  }

  /** Seconds of the segments whose app is an AFK label. */
  function AfkOf(shares: seq<Share>): int
    decreases |shares|
  {
    if shares == [] then 0
    else AfkOf(shares[..|shares| - 1]) + AfkPart(shares[|shares| - 1])
  }

  /** Seconds of the unattributed segments. */
  function UnattributedOf(shares: seq<Share>): int
    decreases |shares|
  {
    if shares == [] then 0
    else UnattributedOf(shares[..|shares| - 1]) + UnattributedPart(shares[|shares| - 1])
  }

  /** Seconds of the attributed segments whose trimmed app is `app`. */
  function AppSeconds(shares: seq<Share>, app: string): int
    decreases |shares|
  {
    if shares == [] then 0
    else AppSeconds(shares[..|shares| - 1], app) + AppPart(shares[|shares| - 1], app)
  }

  /** What a tally of `_build_overview` is keyed by: the trimmed app label, or its
      category. */
  datatype Grouping = ByApp | ByCategory

  function KeyOf(sh: Share, g: Grouping): string {
    match g
    case ByApp => sh.app
    case ByCategory => sh.category
  }

  /** `group_by == "category"` groups the top list by category, anything else by app. */
  function GroupingFor(groupBy: string): Grouping {
    if groupBy == "category" then ByCategory else ByApp
  }

  /** `d[key] = d.get(key, 0) + duration` for an attributed segment; an unattributed
      one leaves the tally alone. */
  function Credit(d: Tally, sh: Share, g: Grouping): (r: Tally)
    requires DistinctKeys(d)
    ensures DistinctKeys(r)
  {
    if sh.unattributed then d else AddTo(d, KeyOf(sh, g), sh.seconds)
  }

  /** The tally of the segments under grouping `g`: each attributed segment, in order,
      adds its seconds under its key. */
  function Tallied(shares: seq<Share>, g: Grouping): (r: Tally)
    ensures DistinctKeys(r)
    decreases |shares|
  {
    if shares == [] then [] else Credit(Tallied(shares[..|shares| - 1], g), shares[|shares| - 1], g)
  }

  /** Every attributed second lands in a tally, whatever it is keyed by: the tallies
      and the unattributed total split the total. */
  lemma {:induction false} TalliedSum(shares: seq<Share>, g: Grouping)
    ensures Sum(Tallied(shares, g)) == TotalOf(shares) - UnattributedOf(shares)
    decreases |shares|
  {
    if shares != [] {
      TalliedSum(shares[..|shares| - 1], g);
    }
  }

  /** Keyed by app, the tally holds the seconds of each app. */
  lemma {:induction false} TalliedByApp(shares: seq<Share>, app: string)
    ensures Get(Tallied(shares, ByApp), app) == AppSeconds(shares, app)
    decreases |shares|
  {
    if shares != [] {
      TalliedByApp(shares[..|shares| - 1], app);
    }
  }

  /** The running totals of `_build_overview`. */
  datatype Totals = Totals(
    total: int, active: int, afk: int, unattributed: int,
    byApp: Tally, byCategory: Tally, byGroup: Tally)

  predicate TalliesDistinct(t: Totals) {
    DistinctKeys(t.byApp) && DistinctKeys(t.byCategory) && DistinctKeys(t.byGroup)
  }

  const NoTotals := Totals(0, 0, 0, 0, [], [], [])

  /** What one iteration of the loop of `_build_overview` does to the totals. */
  function Step(t: Totals, sh: Share, groupBy: string): (r: Totals)
    requires TalliesDistinct(t)
    ensures TalliesDistinct(r)
  {
    Totals(
      t.total + sh.seconds,
      t.active + (if sh.afk then 0 else sh.seconds),
      t.afk + AfkPart(sh),
      t.unattributed + UnattributedPart(sh),
      Credit(t.byApp, sh, ByApp),
      Credit(t.byCategory, sh, ByCategory),
      Credit(t.byGroup, sh, GroupingFor(groupBy)))
  }

  /** The totals after the loop has run over `shares`. */
  function Fold(shares: seq<Share>, groupBy: string): (r: Totals)
    ensures TalliesDistinct(r)
    decreases |shares|
  {
    if shares == [] then NoTotals
    else Step(Fold(shares[..|shares| - 1], groupBy), shares[|shares| - 1], groupBy)
  }

  /** The loop's scalar totals are the seconds of all segments, of the AFK ones and of
      the unattributed ones, and every second is either active or AFK. */
  lemma {:induction false} FoldSeconds(shares: seq<Share>, groupBy: string)
    ensures var t := Fold(shares, groupBy);
      && t.total == TotalOf(shares) && t.afk == AfkOf(shares)
      && t.active + t.afk == t.total && t.unattributed == UnattributedOf(shares)
    decreases |shares|
  {
    if shares != [] {
      FoldSeconds(shares[..|shares| - 1], groupBy);
    }
  }

  /** The loop's three dictionaries are the tallies by app, by category and by the
      requested grouping. */
  lemma {:induction false} FoldTallies(shares: seq<Share>, groupBy: string)
    ensures var t := Fold(shares, groupBy);
      && t.byApp == Tallied(shares, ByApp)
      && t.byCategory == Tallied(shares, ByCategory)
      && t.byGroup == Tallied(shares, GroupingFor(groupBy))
    decreases |shares|
  {
    if shares != [] {
      FoldTallies(shares[..|shares| - 1], groupBy);
    }
  }

  /** One iteration of the loop of `_build_overview` (without the hour and day buckets). */
  method Account(t: Totals, sh: Share, groupBy: string)
    returns (t': Totals)
    requires TalliesDistinct(t)
    ensures t' == Step(t, sh, groupBy)
  {
    var total, active, afk, unattributed := t.total, t.active, t.afk, t.unattributed;
    total := total + sh.seconds;
    if sh.afk {
      afk := afk + sh.seconds;
    } else {
      active := active + sh.seconds;
    }
    if sh.unattributed {
      unattributed := unattributed + sh.seconds;
    }
    var byApp, byCategory, byGroup := CreditAll(t, sh, groupBy);
    t' := Totals(total, active, afk, unattributed, byApp, byCategory, byGroup);
    SameTotals(t', Step(t, sh, groupBy));
  }

  /** Totals are equal when their fields are; stated on its own so that the comparison
      of the three dictionaries is made one field at a time. */
  lemma SameTotals(a: Totals, b: Totals)
    requires a.total == b.total && a.active == b.active && a.afk == b.afk
    requires a.unattributed == b.unattributed
    requires a.byApp == b.byApp && a.byCategory == b.byCategory && a.byGroup == b.byGroup
    ensures a == b
  {
  }

  /** The dictionary updates of one iteration: an attributed segment's seconds go under
      its app, its category, and its app or category as `group_by` asks. */
  method CreditAll(t: Totals, sh: Share, groupBy: string)
    returns (byApp: Tally, byCategory: Tally, byGroup: Tally)
    requires TalliesDistinct(t)
    ensures byApp == Credit(t.byApp, sh, ByApp)
    ensures byCategory == Credit(t.byCategory, sh, ByCategory)
    ensures byGroup == Credit(t.byGroup, sh, GroupingFor(groupBy))
  {
    byApp, byCategory, byGroup := t.byApp, t.byCategory, t.byGroup;
    if !sh.unattributed {
      byApp := AddTo(byApp, sh.app, sh.seconds);
      byCategory := AddTo(byCategory, sh.category, sh.seconds);
      if groupBy == "category" {
        byGroup := AddTo(byGroup, sh.category, sh.seconds);
      } else {
        byGroup := AddTo(byGroup, sh.app, sh.seconds);
      }
    }
  }

  /** The loop over `shares[..i + 1]` is the loop over `shares[..i]` and one more step. */
  lemma FoldStep(shares: seq<Share>, i: nat, groupBy: string)
    requires i < |shares|
    ensures Fold(shares[..i + 1], groupBy) ==
      Step(Fold(shares[..i], groupBy), shares[i], groupBy)
  {
    var p := shares[..i + 1];
    assert p[..i] == shares[..i] && p[i] == shares[i];
  }

  /** The totals part of `_build_overview`'s result. */
  datatype Overview = Overview(
    totalSeconds: int, activeSeconds: int, afkSeconds: int, unattributedSeconds: int,
    byApp: Tally, byCategory: Tally, byGroup: Tally,
    distinctApps: nat, distinctCategories: nat, topApps: seq<PayloadRow>)

  const TopAppsLimit := 50

  /** `_build_overview`, without the hour and day buckets. Every second is counted once
      as active or AFK, and once either as unattributed or under its app, its category
      and its group. */
  method BuildOverview(segments: seq<ReportSegment>, categories: map<string, string>, groupBy: string)
    returns (o: Overview)
    ensures o.totalSeconds == TotalOf(Shares(segments, categories))
    ensures o.afkSeconds == AfkOf(Shares(segments, categories))
    ensures o.activeSeconds + o.afkSeconds == o.totalSeconds
    ensures o.unattributedSeconds == UnattributedOf(Shares(segments, categories))
    ensures o.byApp == Tallied(Shares(segments, categories), ByApp)
    ensures o.byCategory == Tallied(Shares(segments, categories), ByCategory)
    ensures o.byGroup == Tallied(Shares(segments, categories), GroupingFor(groupBy))
    ensures o.unattributedSeconds + Sum(o.byApp) == o.totalSeconds
    ensures Sum(o.byCategory) == Sum(o.byApp) && Sum(o.byGroup) == Sum(o.byApp)
    ensures forall app :: Get(o.byApp, app) == AppSeconds(Shares(segments, categories), app)
    ensures DistinctKeys(o.byApp) && o.distinctApps == |o.byApp|
    ensures DistinctKeys(o.byCategory) && o.distinctCategories == |o.byCategory|
    ensures |o.topApps| <= TopAppsLimit
    ensures o.topApps == SortedPayload(o.byGroup)[..Min(TopAppsLimit, |o.byGroup|)]
  {
    var t := AccountAll(segments, categories, groupBy);
    ghost var shares := Shares(segments, categories);
    FoldSeconds(shares, groupBy);
    FoldTallies(shares, groupBy);
    TalliedSum(shares, ByApp);
    TalliedSum(shares, ByCategory);
    TalliedSum(shares, GroupingFor(groupBy));
    forall app ensures Get(t.byApp, app) == AppSeconds(shares, app) {
      TalliedByApp(shares, app);
    }
    var payload := SortedPayload(t.byGroup);
    var top := payload[..Min(TopAppsLimit, |payload|)];
    o := Overview(t.total, t.active, t.afk, t.unattributed, t.byApp, t.byCategory, t.byGroup,
                  |t.byApp|, |t.byCategory|, top);
  }

  /** The loop of `_build_overview` over all segments. */
  method AccountAll(segments: seq<ReportSegment>, categories: map<string, string>, groupBy: string)
    returns (t: Totals)
    ensures t == Fold(Shares(segments, categories), groupBy)
  {
    ghost var shares := Shares(segments, categories);
    t := NoTotals;
    var i := 0;
    assert shares[..0] == [];
    while i < |segments|
      invariant 0 <= i <= |segments|
      invariant t == Fold(shares[..i], groupBy)
    {
      var sh := ShareOf(segments[i], categories);
      assert sh == shares[i];
      FoldStep(shares, i, groupBy);
      t := Account(t, sh, groupBy);
      i := i + 1;
    }
    assert shares[..|segments|] == shares;
  }

  // ------------------------------------------- collect_segments: the live segment

  /** The open segment of the tracker, as `collect_segments` adds it to a report: only
      when `now` lies in the range and the privacy filter lets it through, running from
      its start to `now` and clipped to the range. */
  function LiveSegment(filter: PrivacyFilter, rangeStart: int, rangeEnd: int, nowTs: int,
                       current: Option<Tracker.Segment>): (r: Option<ReportSegment>)
    reads filter
    ensures r.Some? ==>
      && current.Some? && rangeStart <= nowTs < rangeEnd
      && !filter.IsExcluded(current.value.app, current.value.title)
      && r.value.endTs == nowTs
      && r.value.startTs == Max(current.value.startTs, rangeStart)
      && r.value.app == current.value.app && r.value.title == current.value.title
      && r.value.source == current.value.source
    ensures r.None? <==>
      || current.None? || !(rangeStart <= nowTs < rangeEnd)
      || filter.IsExcluded(current.value.app, current.value.title)
      || nowTs <= Max(current.value.startTs, rangeStart)
  {
    if current.None? || !(rangeStart <= nowTs < rangeEnd) then None
    else
      var c := current.value;
      if filter.IsExcluded(c.app, c.title) then None
      else ClipSegment(SessionRow(-1, c.startTs, nowTs, c.app, c.title, c.source), rangeStart, rangeEnd)
  }
}
