/** The segmentation engine of `app/tracker.py`. The tracker holds at most one open
    segment; every observation either leaves it alone, opens one, or flushes it into
    the session store and opens the next. The decision is given first as pure
    functions over the open segment (`Ingest`, `Flush`, `Run`), with a run-length
    reference definition of the log a stream of observations must produce, and then
    as the `ActivityTracker` class whose methods update its field and the store. */
module Tracker {
  import opened Wrappers
  import opened Text
  import opened SessionStore
  import Detector

  type ActiveWindow = Detector.ActiveWindow

  /** `_CurrentSession`: the open segment. */
  datatype Segment = Segment(app: string, title: string, source: string, startTs: int)

  /** The arguments of one `insert_session` call. */
  datatype InsertCall = InsertCall(startTs: int, endTs: int, app: string, title: string, source: string)

  /** The open segment after a decision, and the inserts the decision made, in order. */
  datatype Step = Step(current: Option<Segment>, writes: seq<InsertCall>)

  /** One tick of the sampling loop: the time read and what the detector returned. */
  datatype Tick = Tick(nowTs: int, detected: Option<ActiveWindow>)

  /** `_is_unidentified`: the stripped, case-folded app is "proceso" or "desconocido" and
      the stripped title is empty. */
  predicate IsUnidentified(w: ActiveWindow)
    ensures IsUnidentified(w) ==> forall k :: 0 <= k < |w.title| ==> IsSpace(w.title[k])
  {
    StripEmptyIffBlank(w.title);
    IsPlaceholderApp(Lower(Strip(w.app))) && Strip(w.title) == []
  }

  /** The two names the detector gives a window it could not attribute, case-folded. */
  predicate IsPlaceholderApp(folded: string) {
    folded == "proceso" || folded == "desconocido"
  }

  predicate SameWindow(s: Segment, w: ActiveWindow) {
    s.app == w.app && s.title == w.title && s.source == w.source
  }

  function Open(w: ActiveWindow, nowTs: int): Segment {
    Segment(w.app, w.title, w.source, nowTs)
  }

  /** The row a flush at `endTs` asks the store to insert for segment `s`. */
  function Closing(s: Segment, endTs: int): InsertCall {
    InsertCall(s.startTs, endTs, s.app, s.title, s.source)
  }

  /** `_flush_locked(end_ts)`: writes the open segment, if any, ending at `endTs`, and
      leaves no open segment. */
  function Flush(current: Option<Segment>, endTs: int): (s: Step)
    ensures s.current == None
    ensures current.None? ==> s.writes == []
    ensures current.Some? ==> s.writes == [Closing(current.value, endTs)]
  {
    match current
    case None => Step(None, [])
    case Some(seg) => Step(None, [Closing(seg, endTs)])
  }

  /** `_ingest_locked(now_ts, detected)`. At most one row is written, and it is always the
      previous segment closed at `nowTs`; a segment that is opened starts at `nowTs`. */
  function Ingest(current: Option<Segment>, nowTs: int, detected: Option<ActiveWindow>): (s: Step)
    ensures |s.writes| <= 1
    ensures s.writes != [] ==> current.Some? && s.writes == [Closing(current.value, nowTs)]
    ensures s.current.Some? && s.current != current ==> s.current.value.startTs == nowTs
    ensures detected.None? ==> s.current.None?
    ensures detected.None? ==> s.writes == (if current.Some? then [Closing(current.value, nowTs)] else [])
    ensures s.current.Some? ==>
      (detected.Some? && SameWindow(s.current.value, detected.value)) || s.current == current
  {
    match detected
    case None => Flush(current, nowTs)
    case Some(w) =>
      if IsUnidentified(w) then Step(current, [])
      else if current.None? then Step(Some(Open(w, nowTs)), [])
      else if SameWindow(current.value, w) then Step(current, [])
      else Step(Some(Open(w, nowTs)), Flush(current, nowTs).writes)
  }

  /** Flushing twice in a row writes at most one row: the second flush writes nothing. */
  lemma FlushIdempotent(current: Option<Segment>, t1: int, t2: int)
    ensures Flush(Flush(current, t1).current, t2).writes == []
    ensures |Flush(current, t1).writes| + |Flush(Flush(current, t1).current, t2).writes| <= 1
  {
  }

  /** An unidentified window neither opens nor closes a segment. */
  lemma UnidentifiedIsIgnored(current: Option<Segment>, nowTs: int, w: ActiveWindow)
    requires IsUnidentified(w)
    ensures Ingest(current, nowTs, Some(w)) == Step(current, [])
  {
  }

  /** A window equal to the open segment writes nothing and keeps the start time. */
  lemma SameWindowIsNoop(seg: Segment, nowTs: int, w: ActiveWindow)
    requires !IsUnidentified(w) && SameWindow(seg, w)
    ensures Ingest(Some(seg), nowTs, Some(w)) == Step(Some(seg), [])
  {
  }

  /** A different window closes the open segment at `nowTs` and opens the next one at the
      same instant, so consecutive segments abut. */
  lemma DifferentWindowRotates(seg: Segment, nowTs: int, w: ActiveWindow)
    requires !IsUnidentified(w) && !SameWindow(seg, w)
    ensures var s := Ingest(Some(seg), nowTs, Some(w));
      && s.writes == [InsertCall(seg.startTs, nowTs, seg.app, seg.title, seg.source)]
      && s.current == Some(Segment(w.app, w.title, w.source, nowTs))
      && s.writes[0].endTs == s.current.value.startTs
  {
  }

  /** The ticks of the loop applied in order to the open segment `current`; the inserts
      of every tick are concatenated. */
  function Run(current: Option<Segment>, ticks: seq<Tick>): (s: Step)
    ensures |s.writes| <= |ticks|
    ensures ticks == [] ==> s == Step(current, [])
    ensures ticks != [] && ticks[|ticks| - 1].detected.None? ==> s.current.None?
    decreases |ticks|
  {
    if ticks == [] then Step(current, [])
    else
      var before := Run(current, ticks[..|ticks| - 1]);
      var last := ticks[|ticks| - 1];
      var step := Ingest(before.current, last.nowTs, last.detected);
      Step(step.current, before.writes + step.writes)
  }

  predicate IsIdentified(t: Tick) {
    t.detected.Some? && !IsUnidentified(t.detected.value)
  }

  /** The detector returned a window on every tick. */
  predicate AllDetected(ticks: seq<Tick>) {
    forall k :: 0 <= k < |ticks| ==> ticks[k].detected.Some?
  }

  /** Every tick observed window `w`. */
  predicate AllSee(ticks: seq<Tick>, w: ActiveWindow) {
    forall k :: 0 <= k < |ticks| ==> ticks[k].detected == Some(w)
  }

  /** The ticks that carry an identified window. */
  function Identified(ticks: seq<Tick>): (r: seq<Tick>)
    ensures forall k :: 0 <= k < |r| ==> IsIdentified(r[k])
    decreases |ticks|
  {
    if ticks == [] then []
    else
      var init := Identified(ticks[..|ticks| - 1]);
      if IsIdentified(ticks[|ticks| - 1]) then init + [ticks[|ticks| - 1]] else init
  }

  /** When the detector never fails, the unidentified ticks could as well not have
      happened: the tracker writes and keeps exactly what it would without them. */
  lemma {:induction false} UnidentifiedTicksVanish(current: Option<Segment>, ticks: seq<Tick>)
    requires AllDetected(ticks)
    ensures Run(current, ticks) == Run(current, Identified(ticks))
    decreases |ticks|
  {
    if ticks != [] {
      var init := ticks[..|ticks| - 1];
      assert AllDetected(init) by {
        assert forall k :: 0 <= k < |init| ==> init[k] == ticks[k];
      }
      UnidentifiedTicksVanish(current, init);
      var before := Run(current, init);
      var last := ticks[|ticks| - 1];
      assert last.detected.Some? by {
        assert ticks[|ticks| - 1].detected.Some?;
      }
      if IsIdentified(last) {
        var r := Identified(init) + [last];
        assert r[..|r| - 1] == Identified(init);
        assert Identified(ticks) == r;
      } else {
        UnidentifiedIsIgnored(before.current, last.nowTs, last.detected.value);
        assert Identified(ticks) == Identified(init);
        assert Run(current, ticks) == Step(before.current, before.writes + []);
        assert before.writes + [] == before.writes;
      }
    }
  }

  /** `n` ticks that all observe the same identified window, followed by a flush, write
      exactly one row: from the first tick's time to the flush time. */
  lemma IdenticalTicksWriteOnce(w: ActiveWindow, ticks: seq<Tick>, flushTs: int)
    requires ticks != [] && !IsUnidentified(w)
    requires AllSee(ticks, w)
    ensures Run(None, ticks).current == Some(Open(w, ticks[0].nowTs))
    ensures Run(None, ticks).writes == []
    ensures Flush(Run(None, ticks).current, flushTs).writes
         == [InsertCall(ticks[0].nowTs, flushTs, w.app, w.title, w.source)]
  {
    IdenticalTicksKeepOpen(w, ticks);
  }

  /** Ticks that all observe the same identified window keep one segment open from the
      first tick on, and write nothing. */
  lemma {:induction false} IdenticalTicksKeepOpen(w: ActiveWindow, ticks: seq<Tick>)
    requires ticks != [] && !IsUnidentified(w)
    requires AllSee(ticks, w)
    ensures Run(None, ticks) == Step(Some(Open(w, ticks[0].nowTs)), [])
    decreases |ticks|
  {
    if |ticks| == 1 {
      FirstTickOpens(ticks, w);
    } else {
      var init := ticks[..|ticks| - 1];
      assert AllSee(init, w) by {
        assert forall k :: 0 <= k < |init| ==> init[k] == ticks[k];
      }
      IdenticalTicksKeepOpen(w, init);
      assert init[0] == ticks[0];
      LastTickKeepsOpen(ticks, Open(w, ticks[0].nowTs), w);
    }
  }

  /** A last tick that sees the window of the segment its predecessors left open keeps it
      open and writes nothing. */
  lemma LastTickKeepsOpen(ticks: seq<Tick>, seg: Segment, w: ActiveWindow)
    requires ticks != [] && Run(None, ticks[..|ticks| - 1]) == Step(Some(seg), [])
    requires AllSee(ticks, w) && !IsUnidentified(w) && SameWindow(seg, w)
    ensures Run(None, ticks) == Step(Some(seg), [])
  {
    var last := ticks[|ticks| - 1];
    assert last.detected == Some(w);
    SplitLast(ticks);
    RunKeepsSegment(ticks[..|ticks| - 1], last, seg, w);
  }

  /** A first tick that sees an identified window opens a segment at its time. */
  lemma FirstTickOpens(ticks: seq<Tick>, w: ActiveWindow)
    requires |ticks| == 1 && ticks[0].detected == Some(w) && !IsUnidentified(w)
    ensures Run(None, ticks) == Step(Some(Open(w, ticks[0].nowTs)), [])
  {
    assert ticks[..0] == [];
  }

  lemma SplitLast(ticks: seq<Tick>)
    requires ticks != []
    ensures ticks == ticks[..|ticks| - 1] + [ticks[|ticks| - 1]]
  {
  }

  /** One more tick extends a run by one `Ingest`. */
  lemma RunSnoc(current: Option<Segment>, init: seq<Tick>, t: Tick)
    ensures Run(current, init + [t])
         == Step(Ingest(Run(current, init).current, t.nowTs, t.detected).current,
                 Run(current, init).writes + Ingest(Run(current, init).current, t.nowTs, t.detected).writes)
  {
    var ticks := init + [t];
    assert ticks[..|ticks| - 1] == init;
  }

  /** A tick on which detection failed ends the run's open segment at that tick's time,
      exactly as the final flush would, and leaves no segment open. */
  lemma FailedDetectionFlushes(current: Option<Segment>, init: seq<Tick>, t: Tick)
    requires t.detected.None?
    ensures var before := Run(current, init);
      Run(current, init + [t]) == Step(None, before.writes + Flush(before.current, t.nowTs).writes)
  {
    RunSnoc(current, init, t);
  }

  /** A window seen, then a failed detection, then the same window again: the gap splits
      the activity into two rows, the first closed at the failed tick and the second
      opened on the tick after it. */
  lemma FailedDetectionSplitsWindow(w: ActiveWindow, t0: int, t1: int, t2: int, flushTs: int)
    requires !IsUnidentified(w)
    ensures var ticks := [Tick(t0, Some(w)), Tick(t1, None), Tick(t2, Some(w))];
      Run(None, ticks).writes + Flush(Run(None, ticks).current, flushTs).writes
        == [InsertCall(t0, t1, w.app, w.title, w.source), InsertCall(t2, flushTs, w.app, w.title, w.source)]
  {
    var a, gap, b := Tick(t0, Some(w)), Tick(t1, None), Tick(t2, Some(w));
    FirstTickOpens([a], w);
    assert [a] + [gap] == [a, gap];
    FailedDetectionFlushes(None, [a], gap);
    assert [a, gap] + [b] == [a, gap, b];
    RunSnoc(None, [a, gap], b);
  }

  /** A tick that sees the open segment's window changes nothing. */
  lemma RunKeepsSegment(init: seq<Tick>, t: Tick, seg: Segment, w: ActiveWindow)
    requires Run(None, init) == Step(Some(seg), [])
    requires t.detected == Some(w) && !IsUnidentified(w) && SameWindow(seg, w)
    ensures Run(None, init + [t]) == Step(Some(seg), [])
  {
    RunSnoc(None, init, t);
    SameWindowIsNoop(seg, t.nowTs, w);
    var none: seq<InsertCall> := [];
    assert none + none == none;
  }

  /** The reference log: the identified ticks grouped into maximal runs of the same
      window, each run becoming one segment that starts at the run's first tick. */
  function Compress(ticks: seq<Tick>): (c: seq<Segment>)
    requires forall k :: 0 <= k < |ticks| ==> IsIdentified(ticks[k])
    ensures |c| <= |ticks|
    ensures ticks != [] ==> c != []
    ensures Alternating(c)
    decreases |ticks|
  {
    if ticks == [] then []
    else
      var prefix := ticks[..|ticks| - 1];
      assert forall k :: 0 <= k < |prefix| ==> prefix[k] == ticks[k];
      var init := Compress(prefix);
      var last := ticks[|ticks| - 1];
      assert IsIdentified(last);
      var w := last.detected.value;
      if init != [] && SameWindow(init[|init| - 1], w) then init
      else
        AlternatingSnoc(init, Open(w, last.nowTs));
        init + [Open(w, last.nowTs)]
  }

  /** Neighbouring segments differ in their window. */
  predicate Alternating(c: seq<Segment>) {
    forall i :: 0 <= i < |c| - 1 ==> !SameWindow(c[i], AsWindow(c[i + 1]))
  }

  /** A segment whose window differs from the last one's keeps neighbours different. */
  lemma AlternatingSnoc(c: seq<Segment>, s: Segment)
    requires Alternating(c)
    requires c == [] || !SameWindow(c[|c| - 1], AsWindow(s))
    ensures Alternating(c + [s])
  {
    var d := c + [s];
    forall i | 0 <= i < |d| - 1 ensures !SameWindow(d[i], AsWindow(d[i + 1])) {
      assert d[i] == c[i];
      if i < |c| - 1 {
        assert d[i + 1] == c[i + 1];
      }
    }
  }

  function AsWindow(s: Segment): ActiveWindow {
    Detector.ActiveWindow(s.app, s.title, s.source)
  }

  /** Rows for all segments but the last, each ending where the next one starts. */
  function ClosedBefore(c: seq<Segment>): (r: seq<InsertCall>)
    ensures |r| == if c == [] then 0 else |c| - 1
  {
    if |c| <= 1 then [] else seq(|c| - 1, i requires 0 <= i < |c| - 1 => Closing(c[i], c[i + 1].startTs))
  }

  lemma ClosedBeforeSnoc(c: seq<Segment>, s: Segment)
    requires c != []
    ensures ClosedBefore(c + [s]) == ClosedBefore(c) + [Closing(c[|c| - 1], s.startTs)]
  {
    var l := ClosedBefore(c + [s]);
    var r := ClosedBefore(c) + [Closing(c[|c| - 1], s.startTs)];
    assert |l| == |r|;
    forall i | 0 <= i < |l| ensures l[i] == r[i] {
      if i < |c| - 1 {
        assert (c + [s])[i] == c[i] && (c + [s])[i + 1] == c[i + 1];
      }
    }
  }

  /** Segment continuity: from no open segment, a stream of identified ticks writes one row
      per maximal run of equal windows except the last, each row ending exactly where the
      next run starts, and keeps the last run open. */
  lemma {:induction false} RunMatchesCompress(ticks: seq<Tick>)
    requires forall k :: 0 <= k < |ticks| ==> IsIdentified(ticks[k])
    ensures var c := Compress(ticks);
      && Run(None, ticks).current == (if c == [] then None else Some(c[|c| - 1]))
      && Run(None, ticks).writes == ClosedBefore(c)
    decreases |ticks|
  {
    if ticks != [] {
      var init := ticks[..|ticks| - 1];
      RunMatchesCompress(init);
      var c := Compress(init);
      var last := ticks[|ticks| - 1];
      var w := last.detected.value;
      if c != [] && !SameWindow(c[|c| - 1], w) {
        ClosedBeforeSnoc(c, Open(w, last.nowTs));
      }
    }
  }

  /** The complete log: the runs' rows, the last one closed by the final flush. */
  lemma RunThenFlushLog(ticks: seq<Tick>, flushTs: int)
    requires forall k :: 0 <= k < |ticks| ==> IsIdentified(ticks[k])
    requires ticks != []
    ensures var c := Compress(ticks);
      Run(None, ticks).writes + Flush(Run(None, ticks).current, flushTs).writes
        == ClosedBefore(c) + [Closing(c[|c| - 1], flushTs)]
  {
    RunMatchesCompress(ticks);
  }

  /** Applies the inserts a step made to the store, in order. */
  function ApplyAll(t: Table, calls: seq<InsertCall>): (t': Table)
    ensures ValidTable(t) ==> ValidTable(t')
    ensures |t'.rows| <= |t.rows| + |calls|
    decreases |calls|
  {
    if calls == [] then t
    else
      var c := calls[0];
      var t1 := Insert(t, c.startTs, c.endTs, c.app, c.title, c.source);
      assert ValidTable(t) ==> ValidTable(t1) by {
        if ValidTable(t) {
          InsertKeepsValid(t, c.startTs, c.endTs, c.app, c.title, c.source);
        }
      }
      ApplyAll(t1, calls[1..])
  }

  /** What `status()` reports about the tracker (the thread's liveness is not modelled). */
  datatype Status = Status(intervalSeconds: real, current: Option<Segment>)

  class ActivityTracker {
    const db: ActivityDB
    const intervalSeconds: real
    var current: Option<Segment>

    /** `__init__`: the interval is raised to at least half a second; nothing is open. */
    constructor (db: ActivityDB, intervalSeconds: real)
      ensures this.db == db && current == None
      ensures this.intervalSeconds == if intervalSeconds < 0.5 then 0.5 else intervalSeconds
    {
      this.db := db;
      this.intervalSeconds := if intervalSeconds < 0.5 then 0.5 else intervalSeconds;
      current := None;
    }

    /** `_flush_locked`. */
    method FlushLocked(endTs: int)
      requires db.Valid()
      modifies this, db
      ensures db.Valid()
      ensures current == None
      ensures db.State() == ApplyAll(old(db.State()), Flush(old(current), endTs).writes)
    {
      if current.None? {
        return;
      }
      var seg := current.value;
      db.InsertSession(seg.startTs, endTs, seg.app, seg.title, seg.source);
      current := None;
    }

    /** `_ingest_locked`. */
    method IngestLocked(nowTs: int, detected: Option<ActiveWindow>)
      requires db.Valid()
      modifies this, db
      ensures db.Valid()
      ensures current == Ingest(old(current), nowTs, detected).current
      ensures db.State() == ApplyAll(old(db.State()), Ingest(old(current), nowTs, detected).writes)
    {
      if detected.None? {
        FlushLocked(nowTs);
        return;
      }
      var w := detected.value;
      if IsUnidentified(w) {
        return;
      }
      if current.None? {
        current := Some(Segment(w.app, w.title, w.source, nowTs));
        return;
      }
      var same := current.value.app == w.app && current.value.title == w.title
        && current.value.source == w.source;
      if same {
        return;
      }
      FlushLocked(nowTs);
      current := Some(Segment(w.app, w.title, w.source, nowTs));
    }

    /** The final flush of `stop()`, at the time it is called. */
    method Stop(nowTs: int)
      requires db.Valid()
      modifies this, db
      ensures db.Valid()
      ensures current == None
      ensures db.State() == ApplyAll(old(db.State()), Flush(old(current), nowTs).writes)
    {
      FlushLocked(nowTs);
    }

    /** `status()`: the open segment's fields verbatim, or none. */
    method GetStatus() returns (s: Status)
      ensures s.current == current && s.intervalSeconds == intervalSeconds
    {
      s := Status(intervalSeconds, current);
    }
  }
}
