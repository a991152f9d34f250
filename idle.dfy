/** `IdleDetector` of `app/idle.py`: how long the user has been idle, asked of
    `xprintidle`, then `xssstate -i`, then the `org.freedesktop.ScreenSaver` D-Bus
    service, each only when its tool is installed; every call records the outcome as the
    last sample, and `capabilities` reports which backends exist. The tools' output and
    the clock are inputs. */
module Idle {
  import opened Wrappers
  import opened Text
  import Detector

  /** `IdleSample`: the last outcome, with the second it was taken. */
  datatype IdleSample = IdleSample(seconds: Option<nat>, backend: string, available: bool, checkedTs: int)

  const XprintidleName: string := "xprintidle"
  const XssstateName: string := "xssstate"
  const ScreensaverName: string := "screensaver_dbus"
  const NoneName: string := "none"
  const DisabledName: string := "disabled"

  // ------------------------------------------------------------------ readings

  /** `_normalize_idle_value`: negative readings count as zero; a reading of 1000 or more
      is taken as milliseconds and turned into whole seconds, a smaller one is kept. */
  function Normalize(raw: int): (v: nat)
    ensures raw <= 0 ==> v == 0
    ensures 0 <= raw < 1000 ==> v == raw
    ensures raw >= 1000 ==> v * 1000 <= raw < (v + 1) * 1000
  {
    var value := if raw < 0 then 0 else raw;
    if value >= 1000 then value / 1000 else value
  }

  /** A normalised reading is never larger than the non-negative part of the raw one. */
  lemma NormalizeBounded(raw: int)
    ensures Normalize(raw) <= (if raw < 0 then 0 else raw)
    ensures Normalize(raw) < 1000 || raw >= 1000000
  {
  }

  /** The millisecond heuristic makes the scale jump: 999 is read as 999 seconds, 1000 as
      one second. */
  lemma NormalizeJumpsAtThousand()
    ensures Normalize(999) == 999 && Normalize(1000) == 1
  {
  }

  /** The body of an integer literal as `int()` accepts it: decimal digits, with single
      underscores allowed between two digits. */
  predicate Grouped(b: string) {
    && b != [] && IsDigit(b[0]) && IsDigit(b[|b| - 1])
    && (forall k :: 0 <= k < |b| ==> IsDigit(b[k]) || b[k] == '_')
    && (forall k :: 0 < k < |b| && b[k - 1] == '_' ==> IsDigit(b[k]))
  }

  /** The digits of a grouped body, underscores dropped. */
  function Ungroup(b: string): (r: string)
    requires forall k :: 0 <= k < |b| ==> IsDigit(b[k]) || b[k] == '_'
    ensures AllDigits(r) && |r| <= |b|
    ensures AllDigits(b) ==> r == b
  {
    if b == [] then []
    else
      var rest := Ungroup(b[1..]);
      if b[0] == '_' then rest else [b[0]] + rest
  }

  /** The value of an unsigned literal body, or `None` when `int()` would reject it. */
  function BodyValue(b: string): (r: Option<nat>)
    ensures r.Some? <==> Grouped(b)
  {
    if Grouped(b) then Some(DecimalValue(Ungroup(b))) else None
  }

  /** `int(text)` on a string: surrounding whitespace, an optional sign, then a grouped
      body; `None` stands for the `ValueError`. */
  function ParseInt(text: string): (r: Option<int>)
    ensures Strip(text) == [] ==> r.None?
    ensures r.Some? ==> exists k :: 0 <= k < |text| && IsDigit(text[k])
  {
    var r := SignedValue(Strip(text));
    if r.Some? then StrippedDigit(text); r else r
  }

  /** A digit of the stripped text is a digit of the text. */
  lemma StrippedDigit(text: string)
    requires exists k :: 0 <= k < |Strip(text)| && IsDigit(Strip(text)[k])
    ensures exists k :: 0 <= k < |text| && IsDigit(text[k])
  {
    var t := Strip(text);
    var k :| 0 <= k < |t| && IsDigit(t[k]);
    StripSlice(text);
    assert text[|text| - |TrimLeft(text)| + k] == t[k];
  }

  /** The value of a stripped literal: an optional sign, then a grouped body. Only text
      with a digit has one. */
  function SignedValue(t: string): (r: Option<int>)
    ensures r.Some? ==> exists k :: 0 <= k < |t| && IsDigit(t[k])
  {
    if t == [] then None
    else
      var negative := t[0] == '-';
      var body := if t[0] == '-' || t[0] == '+' then t[1..] else t;
      match BodyValue(body)
      case None => None
      case Some(n) =>
        assert body[0] == t[|t| - |body|];
        Some(if negative then -(n as int) else n as int)
  }

  /** `str(n)` for any integer. */
  function Render(n: int): (r: string)
    ensures r != []
  {
    if n < 0 then "-" + NatToDecimal(-n) else NatToDecimal(n)
  }

  /** `int()` reads back what `str()` renders. */
  lemma ParseIntRender(n: int)
    ensures ParseInt(Render(n)) == Some(n)
  {
    var m := if n < 0 then -n else n;
    var digits := NatToDecimal(m);
    DecimalRoundTrip(m);
    RenderHasNoSpaceAtEnds(n);
    StripNoop(Render(n));
    if n < 0 {
      assert Render(n)[1..] == digits;
      SignedNegative(Render(n), digits);
    } else {
      SignedDigits(digits);
    }
  }

  /** A rendered integer starts with a sign or a digit and ends with a digit. */
  lemma RenderHasNoSpaceAtEnds(n: int)
    ensures !IsSpace(Render(n)[0]) && !IsSpace(Render(n)[|Render(n)| - 1])
  {
    var m := if n < 0 then -n else n;
    var digits := NatToDecimal(m);
    DecimalRoundTrip(m);
    assert IsDigit(digits[0]) && IsDigit(digits[|digits| - 1]);
    if n < 0 {
      assert Render(n) == "-" + digits;
      assert Render(n)[|Render(n)| - 1] == digits[|digits| - 1];
    }
  }

  /** A run of digits reads as its decimal value. */
  lemma SignedDigits(t: string)
    requires t != [] && AllDigits(t)
    ensures SignedValue(t) == Some(DecimalValue(t) as int)
  {
    DigitsGrouped(t);
    assert IsDigit(t[0]);
  }

  /** A minus sign before a run of digits negates its value. */
  lemma SignedNegative(t: string, digits: string)
    requires t != [] && t[0] == '-' && t[1..] == digits
    requires digits != [] && AllDigits(digits)
    ensures SignedValue(t) == Some(-(DecimalValue(digits) as int))
  {
    DigitsGrouped(digits);
  }

  /** Plain digits form a grouped body worth their decimal value. */
  lemma DigitsGrouped(digits: string)
    requires digits != [] && AllDigits(digits)
    ensures Grouped(digits) && BodyValue(digits) == Some(DecimalValue(digits))
  {
  }

  /** Text holding a letter is not an integer. */
  lemma ParseIntRejectsLetter(text: string, k: nat)
    requires k < |Strip(text)| && 'a' <= Strip(text)[k] <= 'z'
    ensures ParseInt(text) == None
  {
    var t := Strip(text);
    if t[0] == '-' || t[0] == '+' {
      assert k > 0;
      assert t[1..][k - 1] == t[k];
      BodyRejectsLetter(t[1..], k - 1);
    } else {
      BodyRejectsLetter(t, k);
    }
  }

  /** A body holding a letter is rejected. */
  lemma BodyRejectsLetter(body: string, j: nat)
    requires j < |body| && 'a' <= body[j] <= 'z'
    ensures BodyValue(body) == None
  {
  }

  /** `int()` accepts underscores between digits. */
  lemma ParseIntUnderscore()
    ensures ParseInt("1_500") == Some(1500)
  {
    var t := "1_500";
    assert !IsSpace(t[0]) && !IsSpace(t[4]);
    StripNoop(t);
    UnderscoreBody();
  }

  lemma UnderscoreBody()
    ensures BodyValue("1_500") == Some(1500)
  {
    var t := "1_500";
    assert Grouped(t);
    assert Ungroup(t) == "1500" by {
      assert t[1..] == "_500" && t[2..] == "500";
      assert Ungroup("500") == "500";
    }
    assert DecimalValue("1500") == 1500 by {
      assert "1500"[..3] == "150";
      assert "150"[..2] == "15";
      assert "15"[..1] == "1";
    }
  }

  /** `_get_idle_xprintidle`, given the tool's output (`None` when it failed): the whole
      output, as a number of milliseconds. */
  function XprintidleReading(stdout: Option<string>): (r: Option<nat>)
    ensures r.Some? <==> stdout.Some? && ParseInt(stdout.value).Some?
    ensures r.Some? ==> r == Some(Normalize(ParseInt(stdout.value).value))
  {
    match stdout
    case None => None
    case Some(out) =>
      var raw := Strip(out);
      if raw == [] then None
      else
        StripIdempotent(out);
        match ParseInt(raw)
        case None => None
        case Some(ms) => Some(Normalize(ms))
  }

  /** `_get_idle_xssstate` and `_get_idle_screensaver_dbus`: the first run of digits in
      the output. */
  function CounterReading(stdout: Option<string>): (r: Option<nat>)
    ensures r.Some? <==> stdout.Some? && exists k :: 0 <= k < |Strip(stdout.value)| && IsDigit(Strip(stdout.value)[k])
    ensures r.Some? ==> r == Some(Normalize(FirstNumber(Strip(stdout.value)).value))
  {
    match stdout
    case None => None
    case Some(out) =>
      var raw := Strip(out);
      if raw == [] then None
      else
        match FirstNumber(raw)
        case None => None
        case Some(n) => Some(Normalize(n))
  }

  /** An `xssstate` or D-Bus answer that reports `n` is read as `n`, normalised. */
  lemma CounterReadsRendered(pre: string, n: nat, post: string)
    requires pre == [] || !IsSpace(pre[0])
    requires post == [] || !IsSpace(post[|post| - 1])
    requires forall k :: 0 <= k < |pre| ==> !IsDigit(pre[k])
    requires post == [] || !IsDigit(post[0])
    ensures CounterReading(Some(pre + NatToDecimal(n) + post)) == Some(Normalize(n))
  {
    var digits := NatToDecimal(n);
    var s := pre + digits + post;
    EndsNotSpace(pre, digits, post, s);
    StripNoop(s);
    FirstNumberFindsRendered(pre, n, post);
  }

  /** The ends of `pre + digits + post` are not whitespace when those of `pre` and `post`
      are not. */
  lemma EndsNotSpace(pre: string, digits: string, post: string, s: string)
    requires digits != [] && AllDigits(digits)
    requires pre == [] || !IsSpace(pre[0])
    requires post == [] || !IsSpace(post[|post| - 1])
    requires s == pre + digits + post
    ensures s != [] && !IsSpace(s[0]) && !IsSpace(s[|s| - 1])
  {
    if pre == [] {
      assert s[0] == digits[0];
    } else {
      assert s[0] == pre[0];
    }
    if post == [] {
      assert s[|s| - 1] == digits[|digits| - 1];
    } else {
      assert s[|s| - 1] == post[|post| - 1];
    }
  }

  // ------------------------------------------------------------------ the fallback chain

  /** The output of each tool, `None` when running it failed. */
  datatype IdleOutputs = IdleOutputs(xprintidle: Option<string>, xssstate: Option<string>, screensaver: Option<string>)

  /** A reading labelled with the backend that gave it. */
  function Named(name: string, reading: Option<nat>): (r: Option<(string, nat)>)
    ensures r.Some? <==> reading.Some?
  {
    match reading
    case None => None
    case Some(v) => Some((name, v))
  }

  /** The backends in the order `get_idle_seconds` tries them; one whose tool is missing
      contributes nothing. */
  function Readings(hasXprintidle: bool, hasXssstate: bool, hasGdbus: bool, outs: IdleOutputs)
    : seq<Option<(string, nat)>>
  {
    [Detector.Tried(hasXprintidle, Named(XprintidleName, XprintidleReading(outs.xprintidle))),
     Detector.Tried(hasXssstate, Named(XssstateName, CounterReading(outs.xssstate))),
     Detector.Tried(hasGdbus, Named(ScreensaverName, CounterReading(outs.screensaver)))]
  }

  /** `get_idle_seconds`: the sample it stores; what it returns is the sample's seconds. */
  function IdleOutcome(enabled: bool, hasXprintidle: bool, hasXssstate: bool, hasGdbus: bool,
                       outs: IdleOutputs, now: int): (s: IdleSample)
    ensures s.checkedTs == now
    ensures s.available <==> s.seconds.Some?
    ensures !enabled ==> s == IdleSample(None, DisabledName, false, now)
    ensures enabled && s.seconds.None? ==> s.backend == NoneName
  {
    if !enabled then IdleSample(None, DisabledName, false, now)
    else if hasXprintidle && XprintidleReading(outs.xprintidle).Some? then
      IdleSample(XprintidleReading(outs.xprintidle), XprintidleName, true, now)
    else if hasXssstate && CounterReading(outs.xssstate).Some? then
      IdleSample(CounterReading(outs.xssstate), XssstateName, true, now)
    else if hasGdbus && CounterReading(outs.screensaver).Some? then
      IdleSample(CounterReading(outs.screensaver), ScreensaverName, true, now)
    else IdleSample(None, NoneName, false, now)
  }

  /** An enabled detector reports the first backend, in order, that gives a reading, and
      records it as available; when none does it records "none". */
  lemma IdleOutcomeIsFirstReading(hasXprintidle: bool, hasXssstate: bool, hasGdbus: bool, outs: IdleOutputs, now: int)
    ensures var s := IdleOutcome(true, hasXprintidle, hasXssstate, hasGdbus, outs, now);
      var first := Detector.FirstFound(Readings(hasXprintidle, hasXssstate, hasGdbus, outs));
      && (first.None? ==> s == IdleSample(None, NoneName, false, now))
      && (first.Some? ==> s == IdleSample(Some(first.value.1), first.value.0, true, now))
  {
    var rs := Readings(hasXprintidle, hasXssstate, hasGdbus, outs);
    FirstOfThree(rs[0], rs[1], rs[2]);
    assert rs == [rs[0], rs[1], rs[2]];
  }

  /** The first present value of three. */
  lemma FirstOfThree<T>(a: Option<T>, b: Option<T>, c: Option<T>)
    ensures Detector.FirstFound([a, b, c]) == if a.Some? then a else if b.Some? then b else c
  {
    assert [c][1..] == [];
    assert Detector.FirstFound([c]) == c;
    assert [b, c][1..] == [c];
    assert Detector.FirstFound([b, c]) == if b.Some? then b else c;
    assert [a, b, c][1..] == [b, c];
  }

  /** A disabled detector tries no backend: its outcome does not depend on the tools or
      their output. */
  lemma DisabledIgnoresBackends(x1: bool, s1: bool, g1: bool, o1: IdleOutputs,
                                x2: bool, s2: bool, g2: bool, o2: IdleOutputs, now: int)
    ensures IdleOutcome(false, x1, s1, g1, o1, now) == IdleOutcome(false, x2, s2, g2, o2, now)
  {
  }

  // ------------------------------------------------------------------ capabilities

  /** The `backends` list of `capabilities`: the installed ones, in trial order. */
  function BackendList(hasXprintidle: bool, hasXssstate: bool, hasGdbus: bool): (r: seq<string>)
    ensures XprintidleName in r <==> hasXprintidle
    ensures XssstateName in r <==> hasXssstate
    ensures ScreensaverName in r <==> hasGdbus
    ensures NoneName !in r && DisabledName !in r
    ensures |r| <= 3
  {
    (if hasXprintidle then [XprintidleName] else [])
    + (if hasXssstate then [XssstateName] else [])
    + (if hasGdbus then [ScreensaverName] else [])
  }

  /** The first backend listed is the first installed one in trial order. */
  lemma FirstInstalledBackend(hasXprintidle: bool, hasXssstate: bool, hasGdbus: bool)
    ensures BackendList(hasXprintidle, hasXssstate, hasGdbus) == [] <==> !hasXprintidle && !hasXssstate && !hasGdbus
    ensures hasXprintidle ==> BackendList(hasXprintidle, hasXssstate, hasGdbus)[0] == XprintidleName
    ensures !hasXprintidle && hasXssstate ==> BackendList(hasXprintidle, hasXssstate, hasGdbus)[0] == XssstateName
    ensures !hasXprintidle && !hasXssstate && hasGdbus ==> BackendList(hasXprintidle, hasXssstate, hasGdbus)[0] == ScreensaverName
  {
  }

  /** What `capabilities` returns. */
  datatype IdleCapabilities = IdleCapabilities(
    enabled: bool, available: bool, backends: seq<string>, preferred: string,
    lastBackend: string, lastIdleSeconds: Option<nat>, lastCheckedTs: int)

  /** The backend that answered is always one `capabilities` lists, and it is the preferred
      one whenever the preferred one gives a reading. */
  lemma AnsweringBackendIsListed(hasXprintidle: bool, hasXssstate: bool, hasGdbus: bool, outs: IdleOutputs, now: int)
    ensures var s := IdleOutcome(true, hasXprintidle, hasXssstate, hasGdbus, outs, now);
      var list := BackendList(hasXprintidle, hasXssstate, hasGdbus);
      && (s.available ==> s.backend in list)
      && (list != [] && Readings(hasXprintidle, hasXssstate, hasGdbus, outs)[IndexOfFirst(hasXprintidle, hasXssstate, hasGdbus)].Some?
          ==> s.backend == list[0])
  {
  }

  /** The position, in trial order, of the first installed backend (3 when none is). */
  function IndexOfFirst(hasXprintidle: bool, hasXssstate: bool, hasGdbus: bool): (i: nat)
    ensures i <= 3
  {
    if hasXprintidle then 0 else if hasXssstate then 1 else if hasGdbus then 2 else 3
  }

  class IdleDetector {
    const enabled: bool
    const hasXprintidle: bool
    const hasXssstate: bool
    const hasGdbus: bool
    var lastSample: IdleSample

    constructor (enabled: bool, hasXprintidle: bool, hasXssstate: bool, hasGdbus: bool)
      ensures this.enabled == enabled && this.hasXprintidle == hasXprintidle
      ensures this.hasXssstate == hasXssstate && this.hasGdbus == hasGdbus
      ensures lastSample == IdleSample(None, NoneName, false, 0)
    {
      this.enabled := enabled;
      this.hasXprintidle := hasXprintidle;
      this.hasXssstate := hasXssstate;
      this.hasGdbus := hasGdbus;
      lastSample := IdleSample(None, NoneName, false, 0);
    }

    /** `_store`, with `now` standing for `int(time.time())`. */
    method Store(seconds: Option<nat>, backend: string, available: bool, now: int)
      modifies this
      ensures lastSample == IdleSample(seconds, backend, available, now)
    {
      lastSample := IdleSample(seconds, backend, available, now);
    }

    /** `get_idle_seconds`: the value returned is the one recorded, and the recorded sample
        is the outcome of the fallback chain. */
    method GetIdleSeconds(outs: IdleOutputs, now: int) returns (r: Option<nat>)
      modifies this
      ensures r == lastSample.seconds
      ensures lastSample == IdleOutcome(enabled, hasXprintidle, hasXssstate, hasGdbus, outs, now)
    {
      if !enabled {
        Store(None, DisabledName, false, now);
        return None;
      }
      if hasXprintidle {
        var value := XprintidleReading(outs.xprintidle);
        if value.Some? {
          Store(value, XprintidleName, true, now);
          return value;
        }
      }
      if hasXssstate {
        var value := CounterReading(outs.xssstate);
        if value.Some? {
          Store(value, XssstateName, true, now);
          return value;
        }
      }
      if hasGdbus {
        var value := CounterReading(outs.screensaver);
        if value.Some? {
          Store(value, ScreensaverName, true, now);
          return value;
        }
      }
      Store(None, NoneName, false, now);
      return None;
    }

    /** `capabilities`: the installed backends in trial order, the first of them as the
        preferred one ("none" when there is none), and the last sample. */
    method Capabilities() returns (c: IdleCapabilities)
      ensures c.backends == BackendList(hasXprintidle, hasXssstate, hasGdbus)
      ensures c.preferred == (if c.backends == [] then NoneName else c.backends[0])
      ensures c.available <==> enabled && c.backends != []
      ensures c.enabled == enabled
      ensures c.lastBackend == lastSample.backend && c.lastIdleSeconds == lastSample.seconds
      ensures c.lastCheckedTs == lastSample.checkedTs
    {
      var backends: seq<string> := [];
      if hasXprintidle {
        backends := backends + [XprintidleName];
      }
      assert backends == (if hasXprintidle then [XprintidleName] else []);
      if hasXssstate {
        backends := backends + [XssstateName];
      }
      assert backends == (if hasXprintidle then [XprintidleName] else [])
                         + (if hasXssstate then [XssstateName] else []);
      if hasGdbus {
        backends := backends + [ScreensaverName];
      }
      assert backends == BackendList(hasXprintidle, hasXssstate, hasGdbus);
      FirstInstalledBackend(hasXprintidle, hasXssstate, hasGdbus);
      var preferred := NoneName;
      if hasXprintidle {
        preferred := XprintidleName;
      } else if hasXssstate {
        preferred := XssstateName;
      } else if hasGdbus {
        preferred := ScreensaverName;
      }
      var sample := lastSample;
      c := IdleCapabilities(enabled, enabled && |backends| > 0, backends, preferred,
                            sample.backend, sample.seconds, sample.checkedTs);
    }
  }
}
