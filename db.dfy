/** The session store of `app/db.py`: an append-only `sessions` table with
    auto-increment ids, the app-label normalisation applied on every write and
    every read, and the two read queries (`recent_sessions`,
    `overlapping_sessions`). The SQLite table is an in-memory sequence. */
module SessionStore {
  import opened Text
  import opened Sorting

  /** One row of the `sessions` table (`SessionRow` in the source). */
  datatype SessionRow = SessionRow(id: int, startTs: int, endTs: int, app: string, title: string, source: string)

  /** The sentinel label for an unattributed process. */
  const UnattributedLabel: string := "Proceso"

  /** A label as `_normalize_app_label` leaves it: non-empty, already stripped, and not
      a case-insensitive "desconocido". */
  predicate IsNormalLabel(s: string) {
    s != [] && !IsSpace(s[0]) && !IsSpace(s[|s| - 1]) && Lower(s) != "desconocido"
  }

  /** `_normalize_app_label`: blank and "desconocido" labels become "Proceso", anything
      else is returned stripped. (`None` is not representable here; the source's
      `app or ""` makes it behave as the empty string.) */
  function NormalizeAppLabel(app: string): (r: string)
    ensures r == UnattributedLabel || r == Strip(app)
    ensures (Strip(app) == [] || Lower(Strip(app)) == "desconocido") ==> r == UnattributedLabel
    ensures Strip(app) != [] && Lower(Strip(app)) != "desconocido" ==> r == Strip(app)
    ensures r != UnattributedLabel ==> IsNormalLabel(r)
  {
    var value := Strip(app);
    StripIdempotent(app);
    if value == [] then UnattributedLabel
    else if Lower(value) == "desconocido" then UnattributedLabel
    else value
  }

  lemma UnattributedIsNormal()
    ensures IsNormalLabel(UnattributedLabel)
  {
    assert |Lower(UnattributedLabel)| != |"desconocido"|;
  }

  /** A normal label is its own stripped form. */
  lemma NormalLabelIsStripped(s: string)
    requires IsNormalLabel(s)
    ensures Strip(s) == s
  {
    TrimLeftNoop(s);
    TrimRightNoop(s);
  }

  /** Every label the normalisation produces is normal; in particular it is never empty. */
  lemma NormalizedIsNormal(app: string)
    ensures IsNormalLabel(NormalizeAppLabel(app))
  {
    if NormalizeAppLabel(app) == UnattributedLabel {
      UnattributedIsNormal();
    }
  }

  /** A whitespace-only label, and only such a label among those without the
      "desconocido" spelling, is stored as "Proceso". */
  lemma BlankLabelIsUnattributed(app: string)
    requires forall k :: 0 <= k < |app| ==> IsSpace(app[k])
    ensures NormalizeAppLabel(app) == UnattributedLabel
  {
    StripEmptyIffBlank(app);
  }

  /** Normal labels are exactly the fixed points of the normalisation. */
  lemma NormalLabelIsFixed(s: string)
    ensures IsNormalLabel(s) <==> NormalizeAppLabel(s) == s
  {
    NormalizedIsNormal(s);
    if IsNormalLabel(s) {
      NormalLabelIsStripped(s);
    }
  }

  /** Normalising twice is normalising once. */
  lemma NormalizeIdempotent(app: string)
    ensures NormalizeAppLabel(NormalizeAppLabel(app)) == NormalizeAppLabel(app)
  {
    var n := NormalizeAppLabel(app);
    NormalizedIsNormal(app);
    NormalLabelIsStripped(n);
  }

  /** The abstract content of the table: its rows in insertion order and the next id
      AUTOINCREMENT hands out. */
  datatype Table = Table(rows: seq<SessionRow>, nextId: int)

  /** What every row written through `insert_session` satisfies: positive duration, a
      normalised app label, and ids that increase with insertion order and stay below
      the next id. */
  predicate ValidTable(t: Table) {
    && t.nextId >= 1
    && (forall k :: 0 <= k < |t.rows| ==>
          t.rows[k].endTs > t.rows[k].startTs && IsNormalLabel(t.rows[k].app) && 1 <= t.rows[k].id < t.nextId)
    && (forall i, j :: 0 <= i < j < |t.rows| ==> t.rows[i].id < t.rows[j].id)
  }

  const EmptyTable: Table := Table([], 1)

  /** `insert_session`: a row with `endTs <= startTs` is dropped; otherwise one row is
      appended with the next id and the normalised label, and nothing already stored changes. */
  function Insert(t: Table, startTs: int, endTs: int, app: string, title: string, source: string): (t': Table)
    ensures endTs <= startTs ==> t' == t
    ensures endTs > startTs ==>
      && |t'.rows| == |t.rows| + 1
      && t'.rows[..|t.rows|] == t.rows
      && t'.rows[|t.rows|] == SessionRow(t.nextId, startTs, endTs, NormalizeAppLabel(app), title, source)
      && t'.nextId == t.nextId + 1
  {
    if endTs <= startTs then t
    else
      var row := SessionRow(t.nextId, startTs, endTs, NormalizeAppLabel(app), title, source);
      var t' := Table(t.rows + [row], t.nextId + 1);
      assert t'.rows[..|t.rows|] == t.rows;
      t'
  }

  /** Every row the store holds has a positive duration, a normalised label and a fresh,
      increasing id, whatever sequence of inserts produced it. */
  lemma InsertKeepsValid(t: Table, startTs: int, endTs: int, app: string, title: string, source: string)
    requires ValidTable(t)
    ensures ValidTable(Insert(t, startTs, endTs, app, title, source))
  {
    var t' := Insert(t, startTs, endTs, app, title, source);
    NormalizedIsNormal(app);
    if endTs > startTs {
      var n := |t.rows|;
      assert forall k :: 0 <= k < n ==> t'.rows[k] == t.rows[k];
      forall i, j | 0 <= i < j < |t'.rows| ensures t'.rows[i].id < t'.rows[j].id {
        if j == n {
          assert t'.rows[i].id < t.nextId;
        }
      }
    }
  }

  /** No insert with a non-positive duration stores anything. */
  lemma InsertNonPositiveStoresNothing(t: Table, startTs: int, endTs: int, app: string, title: string, source: string)
    requires endTs <= startTs
    ensures Insert(t, startTs, endTs, app, title, source).rows == t.rows
  {
  }

  /** The read paths' copy of a row, with its label normalised again. */
  function NormalizedRow(r: SessionRow): (n: SessionRow)
    ensures IsNormalLabel(n.app)
    ensures n.id == r.id && n.startTs == r.startTs && n.endTs == r.endTs
    ensures n.title == r.title && n.source == r.source
  {
    NormalizedIsNormal(r.app);
    r.(app := NormalizeAppLabel(r.app))
  }

  /** The `WHERE end_ts > ? AND start_ts < ?` test. */
  predicate Overlaps(r: SessionRow, startTs: int, endTs: int) {
    r.endTs > startTs && r.startTs < endTs
  }

  /** The rows of `rows` that overlap `[startTs, endTs)`, in table order. */
  function OverlapRows(rows: seq<SessionRow>, startTs: int, endTs: int): (r: seq<SessionRow>)
    ensures |r| <= |rows|
    ensures forall k :: 0 <= k < |r| ==> Overlaps(r[k], startTs, endTs)
  {
    if rows == [] then []
    else
      var rest := OverlapRows(rows[1..], startTs, endTs);
      if Overlaps(rows[0], startTs, endTs) then [rows[0]] + rest else rest
  }

  /** The query selects a row exactly when the table holds it and it overlaps the range. */
  lemma {:induction false} OverlapRowsMembers(rows: seq<SessionRow>, startTs: int, endTs: int, y: SessionRow)
    ensures y in OverlapRows(rows, startTs, endTs) <==> y in rows && Overlaps(y, startTs, endTs)
  {
    if rows != [] {
      OverlapRowsMembers(rows[1..], startTs, endTs, y);
      assert rows == [rows[0]] + rows[1..];
    }
  }

  function NormalizeAll(rows: seq<SessionRow>): (r: seq<SessionRow>)
    ensures |r| == |rows|
    ensures forall k :: 0 <= k < |rows| ==> r[k] == NormalizedRow(rows[k])
  {
    seq(|rows|, k requires 0 <= k < |rows| => NormalizedRow(rows[k]))
  }

  /** A row is in the normalised copy exactly when it is the normalisation of a row of
      the original. */
  lemma NormalizeAllMembers(rows: seq<SessionRow>, x: SessionRow)
    ensures x in NormalizeAll(rows) <==> exists y :: y in rows && x == NormalizedRow(y)
  {
    var n := NormalizeAll(rows);
    if x in n {
      var k :| 0 <= k < |n| && n[k] == x;
      assert rows[k] in rows;
    }
    if exists y :: y in rows && x == NormalizedRow(y) {
      var y :| y in rows && x == NormalizedRow(y);
      var k :| 0 <= k < |rows| && rows[k] == y;
      assert n[k] == x;
    }
  }

  function StartKey(r: SessionRow): int { r.startTs }

  /** `overlapping_sessions(startTs, endTs)`: the overlapping rows ordered by `start_ts`
      ascending, each with its label normalised. */
  function Overlapping(rows: seq<SessionRow>, startTs: int, endTs: int): (r: seq<SessionRow>)
    ensures |r| == |OverlapRows(rows, startTs, endTs)|
    ensures SortedBy(r, StartKey)
    ensures forall k :: 0 <= k < |r| ==> Overlaps(r[k], startTs, endTs) && IsNormalLabel(r[k].app)
  {
    var sorted := SortBy(OverlapRows(rows, startTs, endTs), StartKey);
    forall k | 0 <= k < |sorted| ensures Overlaps(sorted[k], startTs, endTs) {
      SameElements(sorted, OverlapRows(rows, startTs, endTs), sorted[k]);
    }
    var r := NormalizeAll(sorted);
    NormalizeAllKeepsTimes(sorted);
    SameStartsKeepOrder(sorted, r);
    r
  }

  /** Normalisation changes only labels: every row keeps its times. */
  lemma NormalizeAllKeepsTimes(rows: seq<SessionRow>)
    ensures |NormalizeAll(rows)| == |rows|
    ensures forall k :: 0 <= k < |rows| ==>
      NormalizeAll(rows)[k].startTs == rows[k].startTs && NormalizeAll(rows)[k].endTs == rows[k].endTs
      && IsNormalLabel(NormalizeAll(rows)[k].app)
  {
  }

  lemma SameStartsKeepOrder(a: seq<SessionRow>, b: seq<SessionRow>)
    requires SortedBy(a, StartKey) && |a| == |b|
    requires forall k :: 0 <= k < |a| ==> b[k].startTs == a[k].startTs
    ensures SortedBy(b, StartKey)
  {
  }

  /** A row is returned by `overlapping_sessions` exactly when it is the normalisation of
      a stored row that overlaps the range. */
  lemma OverlappingExactly(rows: seq<SessionRow>, startTs: int, endTs: int, x: SessionRow)
    ensures x in Overlapping(rows, startTs, endTs) <==>
      exists y :: y in rows && Overlaps(y, startTs, endTs) && x == NormalizedRow(y)
  {
    var f := OverlapRows(rows, startTs, endTs);
    var sorted := SortBy(f, StartKey);
    NormalizeAllMembers(sorted, x);
    forall y ensures y in sorted <==> y in rows && Overlaps(y, startTs, endTs) {
      SameElements(sorted, f, y);
      OverlapRowsMembers(rows, startTs, endTs, y);
    }
  }

  /** `max(1, min(limit, 1000))`. */
  function ClampLimit(limit: int): (n: int)
    ensures 1 <= n <= 1000
    ensures 1 <= limit <= 1000 ==> n == limit
  {
    if limit < 1 then 1 else if limit > 1000 then 1000 else limit
  }

  function NegEndKey(r: SessionRow): int { -r.endTs }

  /** `recent_sessions(limit)`: the rows with the latest `end_ts`, latest first, at most
      the clamped limit of them, normalised. Rows left out never end later than a row
      returned. */
  function Recent(rows: seq<SessionRow>, limit: int): (r: seq<SessionRow>)
    ensures |r| == if |rows| < ClampLimit(limit) then |rows| else ClampLimit(limit)
    ensures forall i, j :: 0 <= i < j < |r| ==> r[i].endTs >= r[j].endTs
    ensures multiset(r) <= multiset(NormalizeAll(rows))
    ensures forall x, k :: x in multiset(NormalizeAll(rows)) - multiset(r) && 0 <= k < |r| ==> x.endTs <= r[k].endTs
  {
    var all := NormalizeAll(rows);
    var sorted := SortBy(all, NegEndKey);
    var n := if |rows| < ClampLimit(limit) then |rows| else ClampLimit(limit);
    SortedPrefixIsLatest(sorted, n);
    sorted[..n]
  }

  /** The first `n` rows of a list sorted by descending `end_ts` are its `n` latest rows. */
  lemma SortedPrefixIsLatest(sorted: seq<SessionRow>, n: nat)
    requires SortedBy(sorted, NegEndKey) && n <= |sorted|
    ensures multiset(sorted[..n]) <= multiset(sorted)
    ensures forall i, j :: 0 <= i < j < n ==> sorted[..n][i].endTs >= sorted[..n][j].endTs
    ensures forall x, k :: x in multiset(sorted) - multiset(sorted[..n]) && 0 <= k < n ==> x.endTs <= sorted[..n][k].endTs
  {
    var r := sorted[..n];
    var rest := sorted[n..];
    assert sorted == r + rest;
    assert multiset(sorted) == multiset(r) + multiset(rest);
    forall x, k | x in multiset(sorted) - multiset(r) && 0 <= k < n ensures x.endTs <= r[k].endTs {
      assert x in multiset(rest);
      var m :| 0 <= m < |rest| && rest[m] == x;
      assert sorted[n + m] == x && sorted[k] == r[k];
      assert NegEndKey(sorted[k]) <= NegEndKey(sorted[n + m]);
    }
    forall i, j | 0 <= i < j < n ensures r[i].endTs >= r[j].endTs {
      assert NegEndKey(sorted[i]) <= NegEndKey(sorted[j]);
    }
  }

  /** The `sessions` table. */
  class ActivityDB {
    var rows: seq<SessionRow>
    var nextId: int

    function State(): Table
      reads this
    {
      Table(rows, nextId)
    }

    ghost predicate Valid()
      reads this
    {
      ValidTable(State())
    }

    constructor ()
      ensures Valid() && State() == EmptyTable
    {
      rows := [];
      nextId := 1;
    }

    /** `insert_session`. */
    method InsertSession(startTs: int, endTs: int, app: string, title: string, source: string)
      requires Valid()
      modifies this
      ensures Valid()
      ensures State() == Insert(old(State()), startTs, endTs, app, title, source)
    {
      if endTs <= startTs {
        return;
      }
      var t := State();
      InsertKeepsValid(t, startTs, endTs, app, title, source);
      var normalized := NormalizeAppLabel(app);
      var row := SessionRow(nextId, startTs, endTs, normalized, title, source);
      assert Insert(t, startTs, endTs, app, title, source) == Table(t.rows + [row], t.nextId + 1);
      rows := rows + [row];
      nextId := nextId + 1;
    }

    /** `recent_sessions`. */
    method RecentSessions(limit: int) returns (result: seq<SessionRow>)
      ensures result == Recent(rows, limit)
      ensures |result| <= 1000
      ensures forall k :: 0 <= k < |result| ==> IsNormalLabel(result[k].app)
    {
      result := Recent(rows, limit);
      forall k | 0 <= k < |result| ensures IsNormalLabel(result[k].app) {
        assert result[k] in multiset(NormalizeAll(rows));
      }
    }

    /** `overlapping_sessions`. */
    method OverlappingSessions(startTs: int, endTs: int) returns (result: seq<SessionRow>)
      ensures result == Overlapping(rows, startTs, endTs)
      ensures forall k :: 0 <= k < |result| ==> Overlaps(result[k], startTs, endTs)
    {
      result := Overlapping(rows, startTs, endTs);
    }
  }
}
