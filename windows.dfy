/** The window listing of `app/main.py` (`/api/windows`): every open window, and the
    active one, is passed through the privacy filter; a private window is shown under a
    fixed label with its title, source, process id and window id withheld. The listing
    also counts windows per shown app label and orders those counts, largest first. */
module WindowList {
  import opened Wrappers
  import opened Sorting
  import opened Tally
  import opened Privacy

  /** A window as the detector lists it. */
  datatype WindowInfo = WindowInfo(app: string, title: string, source: string, pid: Option<int>, windowId: Option<string>)

  /** One entry of the listing. */
  datatype WindowItem = WindowItem(
    app: string, title: string, source: string, pid: Option<int>, windowId: Option<string>, isPrivate: bool)

  const PrivateApp: string := "Privado"
  const PrivateTitle: string := "Oculto por regla de privacidad"
  const PrivateSource: string := "privacy"

  /** A private window shows the fixed label, title and source and no ids; any other
      window shows its own fields. */
  function Redact(w: WindowInfo, isPrivate: bool): (r: WindowItem)
    ensures r.isPrivate == isPrivate
    ensures isPrivate ==> r == WindowItem(PrivateApp, PrivateTitle, PrivateSource, None, None, true)
    ensures !isPrivate ==> Unredact(r) == w
  {
    if isPrivate then WindowItem(PrivateApp, PrivateTitle, PrivateSource, None, None, true)
    else WindowItem(w.app, w.title, w.source, w.pid, w.windowId, false)
  }

  /** The window fields an item carries. */
  function Unredact(item: WindowItem): WindowInfo {
    WindowInfo(item.app, item.title, item.source, item.pid, item.windowId)
  }

  /** Two private windows give the same item: nothing of a private window shows. */
  lemma PrivateWindowsIndistinguishable(w1: WindowInfo, w2: WindowInfo)
    ensures Redact(w1, true) == Redact(w2, true)
  {
  }

  /** A window the filter does not exclude is listed as it is. */
  lemma PublicWindowShownVerbatim(w: WindowInfo)
    ensures Unredact(Redact(w, false)) == w && !Redact(w, false).isPrivate
  {
  }

  /** The item the listing shows for `w` under `filter`. */
  function Shown(filter: PrivacyFilter, w: WindowInfo): WindowItem
    reads filter
  {
    Redact(w, filter.IsExcluded(w.app, w.title))
  }

  /** The items of a list of windows, in order. */
  function ShownAll(filter: PrivacyFilter, ws: seq<WindowInfo>): (r: seq<WindowItem>)
    reads filter
    ensures |r| == |ws|
  {
    if ws == [] then []
    else ShownAll(filter, ws[..|ws| - 1]) + [Shown(filter, ws[|ws| - 1])]
  }

  /** The `i`-th item is the `i`-th window as the filter lets it show: private exactly
      when the filter excludes the window. */
  lemma {:induction false} ShownAllAt(filter: PrivacyFilter, ws: seq<WindowInfo>, i: nat)
    requires i < |ws|
    ensures ShownAll(filter, ws)[i] == Shown(filter, ws[i])
    ensures ShownAll(filter, ws)[i].isPrivate == filter.IsExcluded(ws[i].app, ws[i].title)
  {
    var init := ws[..|ws| - 1];
    if i < |ws| - 1 {
      ShownAllAt(filter, init, i);
      assert init[i] == ws[i];
      assert ShownAll(filter, ws)[i] == ShownAll(filter, init)[i];
    }
  }

  /** `by_app`: one added to the shown app label of each item, in listing order. */
  function AppTally(items: seq<WindowItem>): (t: Tally)
    ensures DistinctKeys(t)
  {
    if items == [] then []
    else AddTo(AppTally(items[..|items| - 1]), items[|items| - 1].app, 1)
  }

  /** The number of items shown under `app`. */
  function CountApp(items: seq<WindowItem>, app: string): (n: nat)
    ensures n <= |items|
  {
    if items == [] then 0
    else CountApp(items[..|items| - 1], app) + (if items[|items| - 1].app == app then 1 else 0)
  }

  /** The shown app labels. */
  function AppsOf(items: seq<WindowItem>): set<string> {
    set i | 0 <= i < |items| :: items[i].app
  }

  /** Each count in `by_app` is the number of items with that label. */
  lemma {:induction false} AppTallyCounts(items: seq<WindowItem>, app: string)
    ensures Get(AppTally(items), app) == CountApp(items, app)
  {
    if items != [] {
      AppTallyCounts(items[..|items| - 1], app);
    }
  }

  /** The counts add up to the number of items. */
  lemma {:induction false} AppTallySum(items: seq<WindowItem>)
    ensures Sum(AppTally(items)) == |items|
  {
    if items != [] {
      AppTallySum(items[..|items| - 1]);
    }
  }

  /** `by_app` has an entry for exactly the labels shown. */
  lemma {:induction false} AppTallyKeys(items: seq<WindowItem>)
    ensures Keys(AppTally(items)) == AppsOf(items)
  {
    if items != [] {
      var init := items[..|items| - 1];
      AppTallyKeys(init);
      AppsOfSnoc(items);
      var t := AddTo(AppTally(init), items[|items| - 1].app, 1);
      assert Keys(t) == Keys(AppTally(init)) + {items[|items| - 1].app};
    }
  }

  /** The labels of a listing are those of all but its last item, and the last item's. */
  lemma AppsOfSnoc(items: seq<WindowItem>)
    requires items != []
    ensures AppsOf(items) == AppsOf(items[..|items| - 1]) + {items[|items| - 1].app}
  {
    var init := items[..|items| - 1];
    forall x | x in AppsOf(items) ensures x in AppsOf(init) + {items[|items| - 1].app} {
      var i :| 0 <= i < |items| && items[i].app == x;
      if i < |init| { assert init[i] == items[i]; }
    }
    forall x | x in AppsOf(init) ensures x in AppsOf(items) {
      var i :| 0 <= i < |init| && init[i].app == x;
      assert items[i] == init[i];
    }
  }

  /** The number of private items. */
  function CountPrivate(items: seq<WindowItem>): (n: nat)
    ensures n <= |items|
  {
    if items == [] then 0
    else CountPrivate(items[..|items| - 1]) + (if items[|items| - 1].isPrivate then 1 else 0)
  }

  /** Every private window of a listing is counted under "Privado" in `by_app`. */
  lemma {:induction false} PrivateWindowsCounted(filter: PrivacyFilter, ws: seq<WindowInfo>)
    ensures CountPrivate(ShownAll(filter, ws)) <= CountApp(ShownAll(filter, ws), PrivateApp)
  {
    if ws != [] {
      var init := ws[..|ws| - 1];
      PrivateWindowsCounted(filter, init);
      var items := ShownAll(filter, ws);
      assert items[..|items| - 1] == ShownAll(filter, init);
    }
  }

  function NegCount(e: (string, int)): int { -e.1 }

  /** `app_counts`: the `by_app` entries, largest count first (ties keep their order). */
  function AppCounts(byApp: Tally): (r: Tally)
    ensures |r| == |byApp|
    ensures forall i, j :: 0 <= i < j < |r| ==> r[i].1 >= r[j].1
    ensures multiset(r) == multiset(byApp)
  {
    SortBy(byApp, NegCount)
  }

  /** Every listed count is the number of items with that label, and every shown label
      is listed. */
  lemma AppCountsMeaning(items: seq<WindowItem>)
    ensures forall e :: e in AppCounts(AppTally(items)) ==> e.1 == CountApp(items, e.0)
    ensures forall i :: 0 <= i < |items| ==> exists e :: e in AppCounts(AppTally(items)) && e.0 == items[i].app
  {
    var t := AppTally(items);
    var r := AppCounts(t);
    forall e | e in r ensures e.1 == CountApp(items, e.0) {
      SameElements(r, t, e);
      var k :| 0 <= k < |t| && t[k] == e;
      GetAt(t, k);
      AppTallyCounts(items, e.0);
    }
    AppTallyKeys(items);
    forall i | 0 <= i < |items| ensures exists e :: e in r && e.0 == items[i].app {
      assert items[i].app in AppsOf(items);
      var k :| 0 <= k < |t| && t[k].0 == items[i].app;
      SameElements(r, t, t[k]);
    }
  }

  /** The response of `/api/windows`. */
  datatype WindowsPayload = WindowsPayload(
    count: nat, distinctApps: nat, appCounts: Tally, items: seq<WindowItem>, active: Option<WindowItem>)

  /** `windows`: the detected active window and the open windows, listed through the
      privacy filter. */
  method ListWindows(filter: PrivacyFilter, active: Option<WindowInfo>, open: seq<WindowInfo>)
    returns (p: WindowsPayload)
    ensures p.items == ShownAll(filter, open)
    ensures p.count == |open|
    ensures p.distinctApps == |AppTally(p.items)| == |Keys(AppTally(p.items))|
    ensures p.appCounts == AppCounts(AppTally(p.items))
    ensures active.None? ==> p.active.None?
    ensures active.Some? ==> p.active == Some(Shown(filter, active.value))
  {
    var byApp: Tally := [];
    var items: seq<WindowItem> := [];
    var i := 0;
    while i < |open|
      invariant 0 <= i <= |open|
      invariant items == ShownAll(filter, open[..i])
      invariant byApp == AppTally(items)
    {
      var win := open[i];
      var isPrivate := filter.IsExcluded(win.app, win.title);
      var item := Redact(win, isPrivate);
      ShownAllStep(filter, open, i);
      AppTallyStep(items, item);
      byApp := AddTo(byApp, item.app, 1);
      items := items + [item];
      i := i + 1;
    }
    assert open[..|open|] == open;
    DistinctKeysCount(byApp);
    var activeItem: Option<WindowItem> := None;
    if active.Some? {
      var activePrivate := filter.IsExcluded(active.value.app, active.value.title);
      activeItem := Some(Redact(active.value, activePrivate));
    }
    p := WindowsPayload(|items|, |byApp|, AppCounts(byApp), items, activeItem);
  }

  /** One more window adds its item at the end. */
  lemma ShownAllStep(filter: PrivacyFilter, ws: seq<WindowInfo>, i: nat)
    requires i < |ws|
    ensures ShownAll(filter, ws[..i + 1]) == ShownAll(filter, ws[..i]) + [Shown(filter, ws[i])]
  {
    assert ws[..i + 1][..i] == ws[..i];
  }

  /** One more item adds one to its label's count. */
  lemma AppTallyStep(items: seq<WindowItem>, item: WindowItem)
    ensures AppTally(items + [item]) == AddTo(AppTally(items), item.app, 1)
  {
    assert (items + [item])[..|items|] == items;
  }

  /** A tally with distinct keys has one entry per key. */
  lemma {:induction false} DistinctKeysCount(t: Tally)
    requires DistinctKeys(t)
    ensures |Keys(t)| == |t|
    decreases |t|
  {
    if t != [] {
      DistinctKeysCount(t[1..]);
      KeysCons(t);
      assert t[0].0 !in Keys(t[1..]) by {
        forall i | 0 <= i < |t[1..]| ensures t[1..][i].0 != t[0].0 {
          assert t[1..][i] == t[i + 1];
        }
      }
    }
  }
}
