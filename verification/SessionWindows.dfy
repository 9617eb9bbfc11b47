/** The loops that save and restore a session: a builder fed tab by tab, and windows and tabs created
  * and changed one step at a time.
  */
module SessionWindows {
  import opened Common
  import opened Sessions

  // ---------- saving ----------

  method SaveOneTab(e: Setup, t: Tab, active: bool) returns (d: Dict)
    ensures d == SaveTab(e, t, active)
  {
    d := map["profile" := Str(t.profile), "pinned" := Bool(t.pinned), "size" := Pair(t.columns, t.rows)];
    if t.zoom != ZOOM_DEFAULT {
      d := d["zoom" := UInt(t.zoom)];
    }
    d := d["active" := Bool(active)];
    if t.title.Some? && t.title.value != "" {
      d := d["window-title" := Str(t.title.value)];
    }
    if t.cwd.Some? && t.cwd.value != "" {
      d := d["cwd" := Str(t.cwd.value)];
    }
    if t.container.Some? && DefaultContainer(e, t.profile) != t.container {
      d := d["container" := Str(t.container.value)];
    }
  }

  method SaveOneWindow(e: Setup, restoreSession: bool, w: Window) returns (d: Dict)
    ensures d == SaveWindow(e, restoreSession, w)
  {
    hide SaveTab;
    d := map[];
    if w.maximized {
      d := d["maximized" := Bool(true)];
    }
    var tabs := [];
    for i := 0 to |w.tabs|
      invariant tabs + SaveTabs(e, restoreSession, w, i) == SaveTabs(e, restoreSession, w, 0)
    {
      if restoreSession || w.tabs[i].pinned {
        var tab := SaveOneTab(e, w.tabs[i], w.active == Some(i));
        assert tabs + ([tab] + SaveTabs(e, restoreSession, w, i + 1)) == (tabs + [tab]) + SaveTabs(e, restoreSession, w, i + 1);
        tabs := tabs + [tab];
      } else {
        assert [] + SaveTabs(e, restoreSession, w, i + 1) == SaveTabs(e, restoreSession, w, i + 1);
      }
    }
    assert tabs == SaveTabs(e, restoreSession, w, 0);
    d := d["tabs" := Dicts(tabs)];
  }

  method SessionSave(e: Setup, settings: Settings, ws: seq<Window>) returns (state: Dict)
    ensures state == Save(e, settings, ws)
  {
    hide SaveWindow;
    var windows := [];
    for i := 0 to |ws|
      invariant windows + SaveWindows(e, settings.restoreSession, ws[i..]) == SaveWindows(e, settings.restoreSession, ws)
    {
      var d := SaveOneWindow(e, settings.restoreSession, ws[i]);
      assert ws[i..][1..] == ws[i + 1..];
      assert windows + ([d] + SaveWindows(e, settings.restoreSession, ws[i + 1..]))
          == (windows + [d]) + SaveWindows(e, settings.restoreSession, ws[i + 1..]);
      windows := windows + [d];
    }
    assert windows == SaveWindows(e, settings.restoreSession, ws);
    state := map["version" := UInt(1), "windows" := Dicts(windows)];
  }

  // ---------- windows and tabs ----------

  class TabWidget {
    var profile: string
    var columns: nat
    var rows: nat
    var zoom: nat
    var title: Option<string>
    var cwd: Option<string>
    var container: Option<string>

    constructor (e: Setup, profile: string)
      ensures View(false) == NewTab(e, profile)
    {
      this.profile, columns, rows := profile, e.initialColumns, e.initialRows;
      zoom, title, cwd, container := ZOOM_DEFAULT, None, None, None;
    }

    ghost function View(pinned: bool): Tab
      reads this
    {
      Tab(profile, pinned, columns, rows, zoom, title, cwd, container)
    }

    /** Levels out of range are ignored. */
    method SetZoom(zoom: nat)
      modifies this`zoom
      ensures this.zoom == if ZOOM_FIRST <= zoom < ZOOM_LAST then zoom else old(this.zoom)
    {
      if !(ZOOM_FIRST <= zoom <= ZOOM_LAST - 1) { return; }
      this.zoom := zoom;
    }
  }

  ghost function Views(tabs: seq<TabWidget>, pinned: bool): seq<Tab>
    reads tabs
  {
    seq(|tabs|, (i: nat) requires i < |tabs| reads tabs => tabs[i].View(pinned))
  }

  /** The pages of a tab view: pinned ones stand first. */
  class WindowWidget {
    var pinnedPages: seq<TabWidget>
    var otherPages: seq<TabWidget>
    var selected: TabWidget?
    var maximized: bool

    constructor ()
      ensures pinnedPages == otherPages == [] && selected == null && !maximized
    {
      pinnedPages, otherPages, selected, maximized := [], [], null, false;
    }

    /** The first page of all is selected at once. */
    method AddTabAtEnd(tab: TabWidget)
      modifies this
      ensures otherPages == old(otherPages) + [tab] && pinnedPages == old(pinnedPages) && maximized == old(maximized)
      ensures selected == if old(pinnedPages) == [] && old(otherPages) == [] then tab else old(selected)
    {
      if pinnedPages == [] && otherPages == [] {
        selected := tab;
      }
      otherPages := otherPages + [tab];
    }

    /** A page that becomes pinned moves to the end of the pinned ones. */
    method SetTabPinned(tab: TabWidget, pinned: bool)
      requires otherPages != [] && otherPages[|otherPages| - 1] == tab
      modifies this`pinnedPages, this`otherPages
      ensures pinnedPages == if pinned then old(pinnedPages) + [tab] else old(pinnedPages)
      ensures otherPages == if pinned then old(otherPages)[..|old(otherPages)| - 1] else old(otherPages)
    {
      if pinned {
        otherPages := otherPages[..|otherPages| - 1];
        pinnedPages := pinnedPages + [tab];
      }
    }
  }

  // ---------- restoring ----------

  ghost function ObjectAt(w: WindowWidget, p: Place): Option<TabWidget>
    reads w
  {
    match p
    case Pinned(i) => if i < |w.pinnedPages| then Some(w.pinnedPages[i]) else None
    case Other(i) => if i < |w.otherPages| then Some(w.otherPages[i]) else None
  }

  /** The window and the tab to be activated, so far, stand for a filling. */
  ghost predicate Stands(w: WindowWidget?, active: TabWidget?, f: Filling)
    reads w, if w == null then {} else set t | t in w.pinnedPages + w.otherPages
  {
    if w == null then f == NOTHING && active == null
    else
      && !Empty(f) && Views(w.pinnedPages, true) == f.pinned && Views(w.otherPages, false) == f.others
      && (if active == null then f.active == None else f.active.Some? && ObjectAt(w, f.active.value) == Some(active))
      && w.selected != null && ObjectAt(w, f.first) == Some(w.selected)
  }

  /** What the lookups find, with what stands in for missing values. */
  method ReadStored(e: Setup, settings: Settings, d: Dict)
    returns (theProfile: string, theContainer: Option<string>, columns: nat, rows: nat, zoom: nat)
    ensures theProfile == DupProfile(e, StrAt(d, "profile").GetOr(""))
    ensures theContainer == LookupContainer(e, StrAt(d, "container").GetOr(""))
    ensures (columns, rows) == RestoreSize(e, settings, false, PairAt(d, "size"))
    ensures (if ZOOM_FIRST <= zoom < ZOOM_LAST then zoom else ZOOM_DEFAULT) == RestoreZoom(UIntAt(d, "zoom"))
  {
    hide StrAt, PairAt, UIntAt;
    var profile, container, size, storedZoom := StrAt(d, "profile"), StrAt(d, "container"), PairAt(d, "size"), UIntAt(d, "zoom");
    columns, rows := e.defaultColumns, e.defaultRows;
    if settings.restoreWindowSize && size.Some? {
      columns, rows := size.value.0, size.value.1;
    }
    zoom := ZOOM_DEFAULT;
    if storedZoom.Some? && storedZoom.value < ZOOM_LAST {
      zoom := storedZoom.value;
    }
    theContainer := None;
    if container.Some? && container.value != "" {
      theContainer := LookupContainer(e, container.value);
    }
    theProfile := e.defaultProfile;
    if profile.Some? && profile.value != "" {
      theProfile := DupProfile(e, profile.value);
    }
  }

  /** A tab made from what was stored. */
  method MakeTab(e: Setup, settings: Settings, maximized: bool, d: Dict) returns (tab: TabWidget)
    ensures fresh(tab) && tab.View(BoolAt(d, "pinned")) == RestoreTab(e, settings, maximized, d)
  {
    hide StrAt, PairAt, UIntAt, BoolAt, DupProfile, LookupContainer, RestoreZoom;
    var cwd, title := StrAt(d, "cwd"), StrAt(d, "window-title");
    var theProfile, theContainer, columns, rows, zoom := ReadStored(e, settings, d);
    tab := new TabWidget(e, theProfile);
    if theContainer.Some? { tab.container := theContainer; }
    assert tab.container == theContainer;
    if cwd.Some? { tab.cwd := cwd; }
    assert tab.cwd == cwd;
    if title.Some? { tab.title := title; }
    assert tab.title == title;
    if !maximized { tab.columns, tab.rows := columns, rows; }
    assert (tab.columns, tab.rows) == RestoreSize(e, settings, maximized, PairAt(d, "size"));
    if zoom != ZOOM_DEFAULT { tab.SetZoom(zoom); }
  }

  lemma ViewsAppend(tabs: seq<TabWidget>, tab: TabWidget, pinned: bool)
    ensures Views(tabs + [tab], pinned) == Views(tabs, pinned) + [tab.View(pinned)]
    ensures (tabs + [tab])[..|tabs|] == tabs
  {}

  ghost function Pages(w: WindowWidget?): set<TabWidget>
    reads w
  {
    if w == null then {} else set t | t in w.pinnedPages + w.otherPages
  }

  /** Adding a page at the end and pinning it, or not. */
  method AddPage(w: WindowWidget, tab: TabWidget, pinned: bool)
    modifies w
    ensures w.maximized == old(w.maximized)
    ensures w.pinnedPages == if pinned then old(w.pinnedPages) + [tab] else old(w.pinnedPages)
    ensures w.otherPages == if pinned then old(w.otherPages) else old(w.otherPages) + [tab]
    ensures w.selected == if old(w.pinnedPages) == [] && old(w.otherPages) == [] then tab else old(w.selected)
    ensures Pages(w) == old(Pages(w)) + {tab}
  {
    w.AddTabAtEnd(tab);
    w.SetTabPinned(tab, pinned);
    assert old(w.otherPages) + [tab] == (old(w.otherPages) + [tab])[..|old(w.otherPages)|] + [tab];
  }

  method AddNext(w: WindowWidget, activeTab: TabWidget?, tab: TabWidget, pinned: bool, isActive: bool, ghost f: Filling)
    returns (active: TabWidget?)
    requires Stands(w, activeTab, f)
    modifies w
    ensures w.maximized == old(w.maximized) && Pages(w) == old(Pages(w)) + {tab}
    ensures Stands(w, active, AddTab(f, tab.View(pinned), isActive))
  {
    ViewsAppend(w.pinnedPages, tab, true);
    ViewsAppend(w.otherPages, tab, false);
    ViewsLength(w.pinnedPages, true);
    ViewsLength(w.otherPages, false);
    hide Views, Pages;
    AddPage(w, tab, pinned);
    active := if isActive then tab else activeTab;
    ghost var f' := AddTab(f, tab.View(pinned), isActive);
    assert !Empty(f) && f'.first == f.first;
    assert ObjectAt(w, f'.first) == Some(w.selected);
  }

  method AddFirst(tab: TabWidget, pinned: bool, isActive: bool) returns (w: WindowWidget, active: TabWidget?)
    ensures fresh(w) && !w.maximized
    ensures Pages(w) == {tab}
    ensures Stands(w, active, AddTab(NOTHING, tab.View(pinned), isActive))
  {
    w := new WindowWidget();
    w.AddTabAtEnd(tab);
    w.SetTabPinned(tab, pinned);
    active := if isActive then tab else null;
  }

  /** The window shows what a restored value says, and its selected page is the active tab. */
  ghost predicate Shows(w: WindowWidget, r: Window)
    reads w, w.pinnedPages, w.otherPages
  {
    && w.maximized == r.maximized
    && r.tabs == Views(w.pinnedPages, true) + Views(w.otherPages, false)
    && r.active.Some? && r.active.value < |w.pinnedPages + w.otherPages|
    && (w.pinnedPages + w.otherPages)[r.active.value] == w.selected
  }

  /** The default tab, which becomes active if no other is. */
  method AddDefaultTab(e: Setup, w: WindowWidget, activeTab: TabWidget?, ghost settings: Settings, ghost f: Filling)
    returns (active: TabWidget)
    requires Stands(w, activeTab, f) && !settings.restoreSession
    modifies w
    ensures w.maximized == old(w.maximized) && w.pinnedPages == old(w.pinnedPages)
    ensures old(w.otherPages) < w.otherPages && fresh(Pages(w) - old(Pages(w)))
    ensures Stands(w, active, Finish(e, settings, f))
  {
    var tab := new TabWidget(e, e.defaultProfile);
    ViewsAppend(w.otherPages, tab, false);
    hide Views;
    w.AddTabAtEnd(tab);
    active := if activeTab == null then tab else activeTab;
  }

  /** Activates the chosen tab; without one the page that came first stays selected. */
  method Activate(w: WindowWidget, maximized: bool, activeTab: TabWidget?, ghost g: Filling)
    requires Stands(w, activeTab, g) && !w.maximized
    modifies w
    ensures Pages(w) == old(Pages(w))
    ensures Shows(w, Window(maximized, g.pinned + g.others, Some(Position(g))))
  {
    hide Views;
    if maximized {
      w.maximized := true;
    }
    if activeTab != null {
      w.selected := activeTab;
    }
    assert |Views(w.pinnedPages, true)| == |w.pinnedPages| by { ViewsLength(w.pinnedPages, true); }
  }

  lemma ViewsLength(tabs: seq<TabWidget>, pinned: bool)
    ensures |Views(tabs, pinned)| == |tabs|
  {}

  /** One window restored: its tabs one by one, the default tab if sessions are not restored, then the
    * active one. */
  method RestoreOne(e: Setup, settings: Settings, d: Dict) returns (theWindow: WindowWidget?)
    ensures theWindow == null <==> RestoreWindow(e, settings, d) == None
    ensures theWindow != null ==>
              fresh(theWindow) && fresh(Pages(theWindow)) && Shows(theWindow, RestoreWindow(e, settings, d).value)
  {
    hide RestoreTab, AddTab, Shows, Stands, BoolAt, DictsAt;
    theWindow := null;
    var activeTab: TabWidget? := null;
    var tabs, maximized := DictsAt(d, "tabs"), BoolAt(d, "maximized");
    if tabs.None? || |tabs.value| == 0 { return; }
    var ds := tabs.value;
    ghost var f := NOTHING;
    StandsAtFirst();
    assert ds[0..] == ds;
    for i := 0 to |ds|
      invariant Stands(theWindow, activeTab, f)
      invariant theWindow != null ==> fresh(theWindow) && fresh(Pages(theWindow)) && !theWindow.maximized
      invariant Fill(e, settings, maximized, ds[i..], f) == Fill(e, settings, maximized, ds, NOTHING)
    {
      assert ds[i..][1..] == ds[i + 1..];
      var pinned := BoolAt(ds[i], "pinned");
      if pinned || settings.restoreSession {
        var tab := MakeTab(e, settings, maximized, ds[i]);
        if theWindow == null {
          StandsForNothing(activeTab, f);
          theWindow, activeTab := AddFirst(tab, pinned, BoolAt(ds[i], "active"));
        } else {
          activeTab := AddNext(theWindow, activeTab, tab, pinned, BoolAt(ds[i], "active"), f);
        }
        f := AddTab(f, RestoreTab(e, settings, maximized, ds[i]), BoolAt(ds[i], "active"));
      }
    }
    NullIsEmpty(theWindow, activeTab, f);
    if theWindow != null {
      if !settings.restoreSession {
        activeTab := AddDefaultTab(e, theWindow, activeTab, settings, f);
      }
      Activate(theWindow, maximized, activeTab, Finish(e, settings, f));
    }
  }

  lemma StandsAtFirst()
    ensures Stands(null, null, NOTHING)
  {}

  lemma StandsForNothing(activeTab: TabWidget?, f: Filling)
    ensures Stands(null, activeTab, f) ==> f == NOTHING
  {}

  lemma NullIsEmpty(w: WindowWidget?, activeTab: TabWidget?, f: Filling)
    ensures Stands(w, activeTab, f) ==> (w == null <==> Empty(f))
  {}

  /** All windows that have a tab; the result says whether there is one. */
  method SessionRestore(e: Setup, settings: Settings, state: Dict) returns (windows: seq<WindowWidget>, addedWindow: bool)
    ensures |windows| == |Restore(e, settings, state)|
    ensures forall i :: 0 <= i < |windows| ==> Shows(windows[i], Restore(e, settings, state)[i])
    ensures addedWindow <==> Restore(e, settings, state) != []
  {
    hide RestoreWindow, Shows, UIntAt, DictsAt;
    windows, addedWindow := [], false;
    var version, stored := UIntAt(state, "version"), DictsAt(state, "windows");
    if version.None? { return; }
    if stored.None? { return; }
    var ds := stored.value;
    ghost var all, done := RestoreWindows(e, settings, ds), [];
    assert ds[0..] == ds;
    for i := 0 to |ds|
      invariant all == done + RestoreWindows(e, settings, ds[i..])
      invariant |windows| == |done| && (addedWindow <==> done != [])
      invariant forall j :: 0 <= j < |done| ==> Shows(windows[j], done[j])
    {
      assert ds[i..][1..] == ds[i + 1..];
      ghost var r := RestoreWindow(e, settings, ds[i]);
      ghost var rest := RestoreWindows(e, settings, ds[i + 1..]);
      var theWindow := RestoreOne(e, settings, ds[i]);
      if theWindow != null {
        assert done + ([r.value] + rest) == (done + [r.value]) + rest;
        windows := windows + [theWindow];
        done := done + [r.value];
        addedWindow := true;
      } else {
        assert [] + rest == rest;
      }
    }
  }
}
