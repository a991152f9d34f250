/** The decisions of `WindowDetector` in `app/detector.py`: which backend `capabilities`
    reports as preferred, the order in which `_detect_x11_first` and
    `_detect_wayland_first` try the backends, how each backend turns tool output into a
    window with a non-empty app label, and the time-limited cache of the KWin D-Bus probe.
    Running the tools, the session-type guess and the clock are inputs. */
module Detector {
  import opened Wrappers
  import opened Text
  import opened ToolOutput

  /** `ActiveWindow`: what the detector reports for the focused window. */
  datatype ActiveWindow = ActiveWindow(app: string, title: string, source: string)

  /** `_session_type()`. */
  datatype SessionType = X11Session | WaylandSession | UnknownSession

  /** The backend names `capabilities` reports as `preferred_backend`. */
  datatype Backend = Hyprctl | KwinDbus | X11 | X11Fallback | NoBackend

  function BackendName(b: Backend): (name: string)
    ensures name != []
  {
    match b
    case Hyprctl => "hyprctl"
    case KwinDbus => "kwin_dbus"
    case X11 => "x11"
    case X11Fallback => "x11_fallback"
    case NoBackend => "none"
  }

  /** Which of the command-line tools `shutil.which` found. */
  datatype Tools = Tools(xdotool: bool, xprop: bool, hyprctl: bool, gdbus: bool)

  /** `can_x11`: both X11 tools are installed. */
  predicate CanX11(t: Tools) {
    t.xdotool && t.xprop
  }

  // ------------------------------------------------------------------ preferred backend

  /** The backends a session type ranks, best first. */
  function Priority(session: SessionType): (order: seq<Backend>)
    ensures NoBackend !in order
  {
    match session
    case X11Session => [X11]
    case WaylandSession => [Hyprctl, KwinDbus, X11Fallback]
    case UnknownSession => [Hyprctl, KwinDbus, X11]
  }

  /** A backend can serve: its tool is installed, or for KWin, `can_kwin` holds. */
  predicate Usable(b: Backend, tools: Tools, canKwin: bool) {
    match b
    case Hyprctl => tools.hyprctl
    case KwinDbus => canKwin
    case X11 => CanX11(tools)
    case X11Fallback => CanX11(tools)
    case NoBackend => false
  }

  /** The preferred-backend choice of `capabilities`: the best-ranked usable backend for
      the session type, or none. */
  function PreferredBackend(session: SessionType, tools: Tools, canKwin: bool): (b: Backend)
    ensures b == NoBackend <==>
      forall i :: 0 <= i < |Priority(session)| ==> !Usable(Priority(session)[i], tools, canKwin)
    ensures b != NoBackend ==>
      exists i :: (0 <= i < |Priority(session)| && Priority(session)[i] == b
                   && Usable(b, tools, canKwin)
                   && forall j :: 0 <= j < i ==> !Usable(Priority(session)[j], tools, canKwin))
  {
    if session == X11Session then
      assert Priority(session)[0] == X11;
      if CanX11(tools) then X11 else NoBackend
    else if session == WaylandSession then
      var order := Priority(session);
      assert order[0] == Hyprctl && order[1] == KwinDbus && order[2] == X11Fallback;
      if tools.hyprctl then Hyprctl
      else if canKwin then KwinDbus
      else if CanX11(tools) then X11Fallback
      else NoBackend
    else
      var order := Priority(session);
      assert order[0] == Hyprctl && order[1] == KwinDbus && order[2] == X11;
      if tools.hyprctl then Hyprctl
      else if canKwin then KwinDbus
      else if CanX11(tools) then X11
      else NoBackend
  }

  /** On an X11 session the choice is "x11" exactly when both X11 tools are installed,
      and "none" otherwise. */
  lemma X11SessionPrefersX11(tools: Tools, canKwin: bool)
    ensures PreferredBackend(X11Session, tools, canKwin) == (if CanX11(tools) then X11 else NoBackend)
  {
    var b := PreferredBackend(X11Session, tools, canKwin);
    if b != NoBackend {
      assert b == Priority(X11Session)[0];
    }
  }

  /** `capabilities()`. */
  datatype Capabilities = Capabilities(
    xdotool: bool, xprop: bool, hyprctl: bool, gdbus: bool, kwinDbusEnabled: bool, kwinDbus: bool,
    sessionType: SessionType, wayland: bool, canDetectX11: bool, canDetectWaylandNative: bool,
    preferredBackend: Backend)

  /** The report for a session type, the installed tools, the opt-in flag and the outcome
      `can_kwin` of the KWin check. */
  function CapabilitiesOf(session: SessionType, tools: Tools, kwinEnabled: bool, canKwin: bool): (c: Capabilities)
    ensures c.xdotool == tools.xdotool && c.xprop == tools.xprop
    ensures c.hyprctl == tools.hyprctl && c.gdbus == tools.gdbus
    ensures c.kwinDbusEnabled == kwinEnabled && c.kwinDbus == canKwin
    ensures c.sessionType == session
    ensures c.wayland <==> session == WaylandSession
    ensures c.canDetectX11 <==> tools.xdotool && tools.xprop
    ensures c.canDetectWaylandNative <==> tools.hyprctl || canKwin
    ensures c.preferredBackend == PreferredBackend(session, tools, canKwin)
    ensures c.preferredBackend != NoBackend ==> Usable(c.preferredBackend, tools, canKwin)
  {
    Capabilities(tools.xdotool, tools.xprop, tools.hyprctl, tools.gdbus, kwinEnabled, canKwin,
                 session, session == WaylandSession, CanX11(tools), tools.hyprctl || canKwin,
                 PreferredBackend(session, tools, canKwin))
  }

  // ------------------------------------------------------------------ detection order

  /** The first present value, in order. */
  function FirstFound<T>(candidates: seq<Option<T>>): (r: Option<T>)
    ensures r.None? <==> forall i :: 0 <= i < |candidates| ==> candidates[i].None?
    ensures r.Some? ==>
      exists i :: (0 <= i < |candidates| && candidates[i] == r
                   && forall j :: 0 <= j < i ==> candidates[j].None?)
  {
    if candidates == [] then None
    else if candidates[0].Some? then candidates[0]
    else
      var r := FirstFound(candidates[1..]);
      assert forall i :: 1 <= i < |candidates| ==> candidates[i] == candidates[1..][i - 1];
      r
  }

  /** A backend that is not tried contributes nothing. */
  function Tried<T>(attempted: bool, result: Option<T>): Option<T> {
    if attempted then result else None
  }

  /** What each backend's detector returns when it is invoked. */
  datatype Probes = Probes(x11: Option<ActiveWindow>, hyprland: Option<ActiveWindow>, kwin: Option<ActiveWindow>)

  /** `_detect_x11_first`: X11 when both X11 tools exist, then Hyprland when `hyprctl`
      exists; the first window found wins. */
  function DetectX11First(tools: Tools, probes: Probes): (r: Option<ActiveWindow>)
    ensures r == FirstFound([Tried(CanX11(tools), probes.x11), Tried(tools.hyprctl, probes.hyprland)])
  {
    if CanX11(tools) && probes.x11.Some? then probes.x11
    else if tools.hyprctl && probes.hyprland.Some? then probes.hyprland
    else None
  }

  /** X11 wins whenever it is usable and finds a window; Hyprland is then not consulted. */
  lemma X11FirstPrefersX11(tools: Tools, probes: Probes)
    requires CanX11(tools) && probes.x11.Some?
    ensures DetectX11First(tools, probes) == probes.x11
  {
    var c := [Tried(CanX11(tools), probes.x11), Tried(tools.hyprctl, probes.hyprland)];
    assert c[0] == probes.x11;
  }

  /** Without any usable backend nothing is detected. */
  lemma X11FirstNeedsABackend(tools: Tools, probes: Probes)
    requires !CanX11(tools) && !tools.hyprctl
    ensures DetectX11First(tools, probes).None?
  {
  }

  /** The Wayland-first order as a list: Hyprland, KWin when the opt-in flag is set and
      the KWin check passes, then X11. */
  function WaylandOrder(tools: Tools, kwinEnabled: bool, kwinOk: bool, probes: Probes): seq<Option<ActiveWindow>> {
    [Tried(tools.hyprctl, probes.hyprland), Tried(kwinEnabled && kwinOk, probes.kwin), Tried(CanX11(tools), probes.x11)]
  }

  // ------------------------------------------------------------------ the KWin probe cache

  /** How long a probe outcome is trusted: 15 seconds after a success, 2 after a failure. */
  function Ttl(ok: bool): (t: real)
    ensures t > 0.0
  {
    if ok then 15.0 else 2.0
  }

  /** `_kwin_probe_cache`: when the last probe ran and whether it succeeded. */
  datatype ProbeRecord = ProbeRecord(checkedAt: real, ok: bool)

  /** The outcome of one `_can_use_kwin_dbus` call and the cache it leaves. */
  datatype KwinCheck = KwinCheck(ok: bool, cache: Option<ProbeRecord>)

  /** `_can_use_kwin_dbus`, given the cache, whether `gdbus` is installed, whether a KWin
      process runs, the time `now` and whether the probe call would succeed. */
  function CheckKwin(cache: Option<ProbeRecord>, hasGdbus: bool, kwinRunning: bool, now: real, probeOk: bool): (r: KwinCheck)
    ensures !hasGdbus || !kwinRunning ==> r == KwinCheck(false, cache)
    ensures r.cache != cache ==> r.cache == Some(ProbeRecord(now, probeOk)) && r.ok == probeOk
    ensures r.ok ==> hasGdbus && kwinRunning
  {
    if !hasGdbus || !kwinRunning then KwinCheck(false, cache)
    else if cache.Some? && now - cache.value.checkedAt < Ttl(cache.value.ok) then KwinCheck(cache.value.ok, cache)
    else KwinCheck(probeOk, Some(ProbeRecord(now, probeOk)))
  }

  /** Within the time the cached outcome is trusted, it is the answer and nothing is
      probed. */
  lemma CachedOutcomeStands(record: ProbeRecord, now: real, probeOk: bool)
    requires now - record.checkedAt < Ttl(record.ok)
    ensures CheckKwin(Some(record), true, true, now, probeOk) == KwinCheck(record.ok, Some(record))
  {
  }

  /** Once the cached outcome is too old, or with nothing cached, a new probe decides and
      is cached. */
  lemma ExpiredOutcomeReprobed(cache: Option<ProbeRecord>, now: real, probeOk: bool)
    requires cache.Some? ==> now - cache.value.checkedAt >= Ttl(cache.value.ok)
    ensures CheckKwin(cache, true, true, now, probeOk) == KwinCheck(probeOk, Some(ProbeRecord(now, probeOk)))
  {
  }

  /** Two checks in a row: the second, made before the first probe's outcome expires,
      repeats the first answer whatever the probe would now say; a failed probe is
      retried from two seconds on, while a success is trusted for fifteen. */
  lemma SecondCheckRepeatsFirst(cache: Option<ProbeRecord>, t1: real, p1: bool, t2: real, p2: bool)
    requires t1 <= t2
    ensures var first := CheckKwin(cache, true, true, t1, p1);
      first.cache != cache && t2 < t1 + Ttl(first.ok) ==>
        CheckKwin(first.cache, true, true, t2, p2).ok == first.ok
    ensures var first := CheckKwin(cache, true, true, t1, p1);
      first.cache != cache && !first.ok && t2 >= t1 + 2.0 ==>
        CheckKwin(first.cache, true, true, t2, p2).ok == p2
  {
  }

  /** `WindowDetector`: the tools found at start-up, the opt-in flag read from
      `ACTIVIDAD_ENABLE_KWIN_DBUS`, and the probe cache, the only field that changes. */
  class WindowDetector {
    const tools: Tools
    const kwinEnabled: bool
    var kwinProbeCache: Option<ProbeRecord>

    constructor (tools: Tools, kwinEnabled: bool)
      ensures this.tools == tools && this.kwinEnabled == kwinEnabled
      ensures kwinProbeCache.None?
    {
      this.tools := tools;
      this.kwinEnabled := kwinEnabled;
      kwinProbeCache := None;
    }

    /** `_can_use_kwin_dbus`. */
    method CanUseKwinDbus(kwinRunning: bool, now: real, probeOk: bool) returns (ok: bool)
      modifies this
      ensures KwinCheck(ok, kwinProbeCache) == CheckKwin(old(kwinProbeCache), tools.gdbus, kwinRunning, now, probeOk)
    {
      if !tools.gdbus || !kwinRunning {
        return false;
      }
      if kwinProbeCache.Some? {
        var cached := kwinProbeCache.value;
        if now - cached.checkedAt < Ttl(cached.ok) {
          return cached.ok;
        }
      }
      ok := probeOk;
      kwinProbeCache := Some(ProbeRecord(now, ok));
    }

    /** `capabilities`: the KWin check runs only when the opt-in flag is set. */
    method GetCapabilities(session: SessionType, kwinRunning: bool, now: real, probeOk: bool)
      returns (c: Capabilities)
      modifies this
      ensures var check := CheckKwin(old(kwinProbeCache), tools.gdbus, kwinRunning, now, probeOk);
        && c == CapabilitiesOf(session, tools, kwinEnabled, kwinEnabled && check.ok)
        && kwinProbeCache == (if kwinEnabled then check.cache else old(kwinProbeCache))
    {
      var canKwin := false;
      if kwinEnabled {
        canKwin := CanUseKwinDbus(kwinRunning, now, probeOk);
      }
      c := CapabilitiesOf(session, tools, kwinEnabled, canKwin);
    }

    /** `_detect_wayland_first`: Hyprland, then KWin when enabled and its check passes,
        then X11; the first window found wins. The KWin check, and so the cache, is only
        touched when Hyprland found nothing. */
    method DetectWaylandFirst(probes: Probes, kwinRunning: bool, now: real, probeOk: bool)
      returns (r: Option<ActiveWindow>)
      modifies this
      ensures var check := CheckKwin(old(kwinProbeCache), tools.gdbus, kwinRunning, now, probeOk);
        var consulted := kwinEnabled && !(tools.hyprctl && probes.hyprland.Some?);
        && r == FirstFound(WaylandOrder(tools, kwinEnabled, check.ok, probes))
        && kwinProbeCache == (if consulted then check.cache else old(kwinProbeCache))
    {
      ghost var check := CheckKwin(kwinProbeCache, tools.gdbus, kwinRunning, now, probeOk);
      ghost var order := WaylandOrder(tools, kwinEnabled, check.ok, probes);
      if tools.hyprctl && probes.hyprland.Some? {
        assert order[0] == probes.hyprland;
        return probes.hyprland;
      }
      assert order[0].None?;
      if kwinEnabled {
        var ok := CanUseKwinDbus(kwinRunning, now, probeOk);
        if ok && probes.kwin.Some? {
          assert order[1] == probes.kwin;
          return probes.kwin;
        }
      }
      assert order[1].None?;
      if CanX11(tools) && probes.x11.Some? {
        assert order[2] == probes.x11;
        return probes.x11;
      }
      assert order[2].None?;
      return None;
    }
  }

  // ------------------------------------------------------------------ per-backend readers

  const UnknownApp: string := "Desconocido"
  const HyprctlSource: string := "hyprctl"
  const KwinSource: string := "kwin_dbus"
  const X11Source: string := "x11"

  /** Python's `a or b` on optional strings: `a` unless it is missing or empty. */
  function OrElse(a: Option<string>, b: string): string {
    if a.Some? && a.value != [] then a.value else b
  }

  /** The label a backend reports: the trimmed candidate, or "Desconocido" when that is
      empty. */
  function LabelOr(candidate: string): (app: string)
    ensures app != []
    ensures Strip(candidate) != [] ==> app == Strip(candidate)
    ensures Strip(candidate) == [] ==> app == UnknownApp
  {
    if Strip(candidate) == [] then UnknownApp else Strip(candidate)
  }

  /** The fields `_detect_hyprland` reads from `hyprctl activewindow -j`. */
  datatype HyprWindow = HyprWindow(title: Option<string>, windowClass: Option<string>, initialClass: Option<string>)

  /** `_detect_hyprland`, given the decoded output, or `None` when the output was empty or
      not JSON: the class, else the initial class, trimmed, as the app label. */
  function HyprlandWindow(data: Option<HyprWindow>): (r: Option<ActiveWindow>)
    ensures r.Some? <==> data.Some?
    ensures r.Some? ==>
      (r.value.app != [] && r.value.source == HyprctlSource
       && r.value.app == LabelOr(OrElse(data.value.windowClass, OrElse(data.value.initialClass, UnknownApp)))
       && r.value.title == Strip(OrElse(data.value.title, [])))
  {
    match data
    case None => None
    case Some(d) =>
      var title := Strip(OrElse(d.title, []));
      var app := Strip(OrElse(d.windowClass, OrElse(d.initialClass, UnknownApp)));
      Some(ActiveWindow(if app == [] then UnknownApp else app, title, HyprctlSource))
  }

  /** `_detect_kwin_dbus`, given the `queryWindowInfo` output: the caption as the title and
      the first non-empty of resourceClass, desktopFile and resourceName as the app. */
  function KwinWindow(raw: Option<string>): (r: Option<ActiveWindow>)
    ensures r.Some? <==> raw.Some? && raw.value != []
    ensures r.Some? ==>
      (r.value.app != [] && r.value.source == KwinSource
       && r.value.title == ExtractVariantMapValue(raw.value, "caption"))
    ensures r.Some? ==>
      var resourceClass := ExtractVariantMapValue(raw.value, "resourceClass");
      var desktopFile := ExtractVariantMapValue(raw.value, "desktopFile");
      var resourceName := ExtractVariantMapValue(raw.value, "resourceName");
      r.value.app
        == if resourceClass != [] then resourceClass
           else if desktopFile != [] then desktopFile
           else if resourceName != [] then resourceName
           else UnknownApp
  {
    if raw.None? || raw.value == [] then None
    else
      var text := raw.value;
      var title := ExtractVariantMapValue(text, "caption");
      var resourceClass := ExtractVariantMapValue(text, "resourceClass");
      var app :=
        if resourceClass != [] then resourceClass
        else
          var desktopFile := ExtractVariantMapValue(text, "desktopFile");
          if desktopFile != [] then desktopFile
          else ExtractVariantMapValue(text, "resourceName");
      Some(ActiveWindow(if app == [] then UnknownApp else app, title, KwinSource))
  }

  /** The outputs `_detect_x11` reads: `xdotool getactivewindow` and the `WM_NAME`,
      `WM_CLASS` and `_NET_WM_PID` properties from `xprop`, each `None` when the command
      failed. `processName` is what `psutil` reports for a process id, empty when the
      lookup fails. */
  datatype X11Outputs = X11Outputs(
    windowId: Option<string>, wmName: Option<string>, wmClass: Option<string>, netWmPid: Option<string>)

  /** `_detect_x11`: the title from `WM_NAME`, the app from the last name in `WM_CLASS`,
      else the name of the process owning the window, else "Desconocido". */
  function X11Window(out: X11Outputs, processName: nat -> string): (r: Option<ActiveWindow>)
    ensures r.Some? <==> out.windowId.Some? && out.windowId.value != []
    ensures r.Some? ==>
      (r.value.app != [] && r.value.source == X11Source
       && r.value.title == ExtractQuoted(OrElse(out.wmName, [])))
    ensures r.Some? && ExtractLastQuoted(OrElse(out.wmClass, [])) != [] ==>
      r.value.app == ExtractLastQuoted(OrElse(out.wmClass, []))
    ensures r.Some? && ExtractLastQuoted(OrElse(out.wmClass, [])) == [] ==>
      var pid := ExtractPid(OrElse(out.netWmPid, []));
      r.value.app == if pid.Some? && processName(pid.value) != [] then processName(pid.value) else UnknownApp
  {
    if out.windowId.None? || out.windowId.value == [] then None
    else
      var title := ExtractQuoted(OrElse(out.wmName, []));
      var fromClass := ExtractLastQuoted(OrElse(out.wmClass, []));
      var pid := ExtractPid(OrElse(out.netWmPid, []));
      var app := if fromClass == [] && pid.Some? then processName(pid.value) else fromClass;
      Some(ActiveWindow(if app == [] then UnknownApp else app, title, X11Source))
  }

  /** Typical `xprop` output is read into the window it describes: the class name and the
      quoted title, both trimmed, whatever `_NET_WM_PID` says. */
  lemma X11WindowReadsXprop(windowId: string, title: string, instance: string, wmClass: string,
                            netWmPid: Option<string>, processName: nat -> string)
    requires windowId != []
    requires forall k :: 0 <= k < |title| ==> title[k] != '\n'
    requires instance != [] && forall k :: 0 <= k < |instance| ==> instance[k] != Quote
    requires wmClass != [] && forall k :: 0 <= k < |wmClass| ==> wmClass[k] != Quote
    requires Strip(wmClass) != []
    ensures X11Window(X11Outputs(Some(windowId), Some(WmNameLine(title)), Some(WmClassLine(instance, wmClass)),
                                 netWmPid), processName)
      == Some(ActiveWindow(Strip(wmClass), Strip(title), X11Source))
  {
    var out := X11Outputs(Some(windowId), Some(WmNameLine(title)), Some(WmClassLine(instance, wmClass)), netWmPid);
    WmNameReadsTitle(title);
    WmClassReadsClass(instance, wmClass);
    X11WindowFromClass(out, processName, Strip(title), Strip(wmClass));
  }

  /** A window whose class is read is labelled with it. */
  lemma X11WindowFromClass(out: X11Outputs, processName: nat -> string, title: string, app: string)
    requires out.windowId.Some? && out.windowId.value != []
    requires ExtractQuoted(OrElse(out.wmName, [])) == title
    requires ExtractLastQuoted(OrElse(out.wmClass, [])) == app && app != []
    ensures X11Window(out, processName) == Some(ActiveWindow(app, title, X11Source))
  {
  }

  /** How `xprop` prints `WM_NAME`. */
  function WmNameLine(title: string): (r: string)
    ensures |r| == |title| + 20
  {
    "WM_NAME(STRING) = \"" + title + "\""
  }

  /** How `xprop` prints `WM_CLASS`: the instance name, then the class name. */
  function WmClassLine(instance: string, wmClass: string): (r: string)
    ensures |r| == |instance| + |wmClass| + 25
  {
    "WM_CLASS(STRING) = \"" + instance + "\", \"" + wmClass + "\""
  }

  /** The title is read back from the `WM_NAME` line. */
  lemma WmNameReadsTitle(title: string)
    requires forall k :: 0 <= k < |title| ==> title[k] != '\n'
    ensures ExtractQuoted(WmNameLine(title)) == Strip(title)
  {
    WmNameLayout(title);
    ExtractQuotedReadsValue(WmNameLine(title), 18);
  }

  /** Where the quotes and the title stand in the `WM_NAME` line. */
  lemma WmNameLayout(title: string)
    requires forall k :: 0 <= k < |title| ==> title[k] != '\n'
    ensures var r := WmNameLine(title);
      && r[18] == Quote && r[|r| - 1] == Quote
      && (forall k :: 0 <= k < 18 ==> r[k] != Quote)
      && (forall k :: 19 <= k < |r| ==> r[k] != '\n')
      && r[19..|r| - 1] == title
  {
    var r := WmNameLine(title);
    forall k | 19 <= k < |r| ensures r[k] != '\n' {
      if k < |r| - 1 {
        assert r[k] == title[k - 19];
      }
    }
    assert r[19..|r| - 1] == title;
  }

  /** The class name is read back from the `WM_CLASS` line. */
  lemma WmClassReadsClass(instance: string, wmClass: string)
    requires instance != [] && forall k :: 0 <= k < |instance| ==> instance[k] != Quote
    requires wmClass != [] && forall k :: 0 <= k < |wmClass| ==> wmClass[k] != Quote
    ensures ExtractLastQuoted(WmClassLine(instance, wmClass)) == Strip(wmClass)
  {
    var prefix := "WM_CLASS(STRING) = ";
    assert WmClassLine(instance, wmClass) == prefix + [Quote] + instance + [Quote] + ", " + [Quote] + wmClass + [Quote];
    ExtractLastQuotedReadsClass(prefix, instance, wmClass);
  }
}
