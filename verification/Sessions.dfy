/** Saving the open windows to a dictionary of dictionaries and opening them again from it.
  *
  * A tab counts with what saving looks at: its profile, its working directory and title (each the
  * current one or else the one it was given), its container, zoom, size, and whether it is pinned.
  */
module Sessions {
  import opened Common

  // ---------- stored values ----------

  datatype Value =
    | Bool(b: bool)
    | UInt(n: nat)
    | Str(s: string)
    | Pair(first: nat, second: nat)
    | Dicts(items: seq<Dict>)

  type Dict = map<string, Value>

  /** A lookup fails when the key is missing or the value has another type. */
  function BoolAt(d: Dict, key: string): bool { key in d && d[key].Bool? && d[key].b }

  function StrAt(d: Dict, key: string): Option<string> {
    if key in d && d[key].Str? then Some(d[key].s) else None
  }

  function UIntAt(d: Dict, key: string): Option<nat> {
    if key in d && d[key].UInt? then Some(d[key].n) else None
  }

  function PairAt(d: Dict, key: string): Option<(nat, nat)> {
    if key in d && d[key].Pair? then Some((d[key].first, d[key].second)) else None
  }

  function DictsAt(d: Dict, key: string): Option<seq<Dict>> {
    if key in d && d[key].Dicts? then Some(d[key].items) else None
  }

  // ---------- windows and tabs ----------

  const ZOOM_FIRST: nat := 1
  const ZOOM_DEFAULT: nat := 15
  const ZOOM_LAST: nat := 30

  datatype Tab = Tab(profile: string, pinned: bool, columns: nat, rows: nat, zoom: nat,
                     title: Option<string>, cwd: Option<string>, container: Option<string>)

  /** `active` is a position in `tabs`. */
  datatype Window = Window(maximized: bool, tabs: seq<Tab>, active: Option<nat>)

  /** What the application knows: its profiles, the default container of a profile, the containers that
    * exist, and the two sizes a terminal may start with. */
  datatype Setup = Setup(profiles: set<string>, defaultProfile: string,
                         defaultContainers: map<string, string>, containers: set<string>,
                         defaultColumns: nat, defaultRows: nat, initialColumns: nat, initialRows: nat)

  datatype Settings = Settings(restoreSession: bool, restoreWindowSize: bool)

  function DefaultContainer(e: Setup, profile: string): Option<string> {
    if profile in e.defaultContainers then Some(e.defaultContainers[profile]) else None
  }

  function DupProfile(e: Setup, uuid: string): string {
    if uuid != "" && uuid in e.profiles then uuid else e.defaultProfile
  }

  function LookupContainer(e: Setup, id: string): Option<string> {
    if id != "" && id in e.containers then Some(id) else None
  }

  // ---------- saving ----------

  predicate Filled(s: Option<string>) { s.Some? && s.value != "" }

  function OptionalStr(d: Dict, key: string, s: Option<string>): Dict {
    if Filled(s) then d[key := Str(s.value)] else d
  }

  function SaveTab(e: Setup, t: Tab, active: bool): Dict {
    var d0 := map["profile" := Str(t.profile), "pinned" := Bool(t.pinned), "size" := Pair(t.columns, t.rows)];
    var d1 := if t.zoom != ZOOM_DEFAULT then d0["zoom" := UInt(t.zoom)] else d0;
    var d2 := d1["active" := Bool(active)];
    var d3 := OptionalStr(d2, "window-title", t.title);
    var d4 := OptionalStr(d3, "cwd", t.cwd);
    if t.container.Some? && DefaultContainer(e, t.profile) != t.container then d4["container" := Str(t.container.value)] else d4
  }

  /** The tabs from position i on: all of them, or the pinned ones. */
  function SaveTabs(e: Setup, all: bool, w: Window, i: nat): seq<Dict>
    requires i <= |w.tabs|
    decreases |w.tabs| - i
  {
    if i == |w.tabs| then []
    else
      (if all || w.tabs[i].pinned then [SaveTab(e, w.tabs[i], w.active == Some(i))] else []) + SaveTabs(e, all, w, i + 1)
  }

  function SaveWindow(e: Setup, all: bool, w: Window): Dict {
    var d := if w.maximized then map["maximized" := Bool(true)] else map[];
    d["tabs" := Dicts(SaveTabs(e, all, w, 0))]
  }

  function SaveWindows(e: Setup, all: bool, ws: seq<Window>): seq<Dict> {
    if ws == [] then [] else [SaveWindow(e, all, ws[0])] + SaveWindows(e, all, ws[1..])
  }

  function Save(e: Setup, settings: Settings, ws: seq<Window>): Dict {
    map["version" := UInt(1), "windows" := Dicts(SaveWindows(e, settings.restoreSession, ws))]
  }

  // ---------- restoring ----------

  function RestoreZoom(zoom: Option<nat>): nat {
    if zoom.Some? && ZOOM_FIRST <= zoom.value < ZOOM_LAST then zoom.value else ZOOM_DEFAULT
  }

  function RestoreSize(e: Setup, settings: Settings, maximized: bool, size: Option<(nat, nat)>): (nat, nat) {
    if maximized then (e.initialColumns, e.initialRows)
    else if settings.restoreWindowSize && size.Some? then size.value
    else (e.defaultColumns, e.defaultRows)
  }

  function NewTab(e: Setup, profile: string): Tab {
    Tab(profile, false, e.initialColumns, e.initialRows, ZOOM_DEFAULT, None, None, None)
  }

  function RestoreTab(e: Setup, settings: Settings, maximized: bool, d: Dict): Tab {
    var id := StrAt(d, "container").GetOr("");
    var size := RestoreSize(e, settings, maximized, PairAt(d, "size"));
    Tab(DupProfile(e, StrAt(d, "profile").GetOr("")), BoolAt(d, "pinned"), size.0, size.1,
        RestoreZoom(UIntAt(d, "zoom")), StrAt(d, "window-title"), StrAt(d, "cwd"), LookupContainer(e, id))
  }

  predicate Comes(settings: Settings, d: Dict) { settings.restoreSession || BoolAt(d, "pinned") }

  /** A window while it is filled.  Pinned pages stand before the others.  `first` is the page that was
    * added first, which is selected until another one is. */
  datatype Place = Pinned(i: nat) | Other(i: nat)
  datatype Filling = Filling(pinned: seq<Tab>, others: seq<Tab>, active: Option<Place>, first: Place)

  const NOTHING := Filling([], [], None, Pinned(0))

  predicate Empty(f: Filling) { f.pinned == [] && f.others == [] }

  function AddTab(f: Filling, t: Tab, active: bool): Filling {
    var place := if t.pinned then Pinned(|f.pinned|) else Other(|f.others|);
    Filling(if t.pinned then f.pinned + [t] else f.pinned,
            if t.pinned then f.others else f.others + [t],
            if active then Some(place) else f.active,
            if Empty(f) then place else f.first)
  }

  function Fill(e: Setup, settings: Settings, maximized: bool, ds: seq<Dict>, f: Filling): Filling
    decreases |ds|
  {
    if ds == [] then f
    else
      Fill(e, settings, maximized, ds[1..],
           if Comes(settings, ds[0]) then AddTab(f, RestoreTab(e, settings, maximized, ds[0]), BoolAt(ds[0], "active")) else f)
  }

  function Position(f: Filling): nat {
    match f.active.GetOr(f.first)
    case Pinned(i) => i
    case Other(i) => |f.pinned| + i
  }

  function Finish(e: Setup, settings: Settings, f: Filling): Filling {
    if settings.restoreSession then f
    else
      f.(others := f.others + [NewTab(e, e.defaultProfile)],
         active := if f.active.None? then Some(Other(|f.others|)) else f.active)
  }

  function RestoreWindow(e: Setup, settings: Settings, d: Dict): Option<Window> {
    var maximized := BoolAt(d, "maximized");
    var f := Fill(e, settings, maximized, DictsAt(d, "tabs").GetOr([]), NOTHING);
    if Empty(f) then None
    else
      var g := Finish(e, settings, f);
      Some(Window(maximized, g.pinned + g.others, Some(Position(g))))
  }

  function RestoreWindows(e: Setup, settings: Settings, ds: seq<Dict>): seq<Window> {
    if ds == [] then []
    else
      var w := RestoreWindow(e, settings, ds[0]);
      (if w.Some? then [w.value] else []) + RestoreWindows(e, settings, ds[1..])
  }

  function Restore(e: Setup, settings: Settings, state: Dict): seq<Window> {
    if UIntAt(state, "version").None? || DictsAt(state, "windows").None? then []
    else RestoreWindows(e, settings, DictsAt(state, "windows").value)
  }

  // ---------- one tab ----------

  /** What becomes of a tab: a profile that is gone gives way to the default one, and a container that
    * is gone or was the profile's default one anyway is left to the profile. */
  function Came(e: Setup, settings: Settings, maximized: bool, t: Tab): Tab {
    var size := RestoreSize(e, settings, maximized, Some((t.columns, t.rows)));
    Tab(DupProfile(e, t.profile), t.pinned, size.0, size.1, RestoreZoom(Some(t.zoom)),
        if Filled(t.title) then t.title else None,
        if Filled(t.cwd) then t.cwd else None,
        if t.container.None? || t.container == DefaultContainer(e, t.profile) then None
        else LookupContainer(e, t.container.value))
  }

  lemma SavedStrings(e: Setup, t: Tab, active: bool)
    ensures var d := SaveTab(e, t, active);
      && StrAt(d, "profile") == Some(t.profile)
      && StrAt(d, "window-title") == (if Filled(t.title) then t.title else None)
      && StrAt(d, "cwd") == (if Filled(t.cwd) then t.cwd else None)
      && StrAt(d, "container") == (if t.container == DefaultContainer(e, t.profile) then None else t.container)
  {}

  lemma SavedOthers(e: Setup, t: Tab, active: bool)
    ensures var d := SaveTab(e, t, active);
      && BoolAt(d, "pinned") == t.pinned && BoolAt(d, "active") == active
      && PairAt(d, "size") == Some((t.columns, t.rows))
      && RestoreZoom(UIntAt(d, "zoom")) == RestoreZoom(Some(t.zoom))
  {}

  /** The dictionary of a tab, key by key. */
  lemma SavedFixed(e: Setup, t: Tab, active: bool)
    ensures var d := SaveTab(e, t, active);
      && d.Keys <= {"profile", "pinned", "size", "zoom", "active", "window-title", "cwd", "container"}
      && Holds(d, "profile", Str(t.profile)) && Holds(d, "pinned", Bool(t.pinned))
      && Holds(d, "size", Pair(t.columns, t.rows)) && Holds(d, "active", Bool(active))
  {}

  /** The keys that are there only when there is something to say. */
  lemma SavedOptional(e: Setup, t: Tab, active: bool)
    ensures var d := SaveTab(e, t, active);
      && HoldsIf(d, "zoom", UInt(t.zoom), t.zoom != 15)
      && HoldsIf(d, "window-title", Str(t.title.GetOr("")), t.title.Some? && t.title.value != "")
      && HoldsIf(d, "cwd", Str(t.cwd.GetOr("")), t.cwd.Some? && t.cwd.value != "")
      && HoldsIf(d, "container", Str(t.container.GetOr("")), t.container.Some? && !IsDefault(e, t.profile, t.container.value))
  {}

  /** A value that is stored exactly under a condition. */
  predicate HoldsIf(d: Dict, key: string, v: Value, stored: bool) { if stored then Holds(d, key, v) else key !in d }

  predicate IsDefault(e: Setup, profile: string, container: string) {
    profile in e.defaultContainers && e.defaultContainers[profile] == container
  }

  predicate Holds(d: Dict, key: string, v: Value) { key in d && d[key] == v }

  /** What any dictionary gives for a tab, whoever wrote it: every key may be missing, hold another type, or
    * name something that does not exist. */
  lemma TabFromDict(e: Setup, settings: Settings, maximized: bool, d: Dict)
    ensures var t := RestoreTab(e, settings, maximized, d);
      && (forall id :: Holds(d, "profile", Str(id)) && id != "" && id in e.profiles ==> t.profile == id)
      && ((forall id :: Holds(d, "profile", Str(id)) ==> id == "" || id !in e.profiles) ==> t.profile == e.defaultProfile)
      && (forall id :: t.container == Some(id) <==> Holds(d, "container", Str(id)) && id != "" && id in e.containers)
      && (t.pinned <==> Holds(d, "pinned", Bool(true)))
      && (forall z: nat :: Holds(d, "zoom", UInt(z)) && 1 <= z < 30 ==> t.zoom == z)
      && ((forall z: nat :: Holds(d, "zoom", UInt(z)) ==> z == 0 || z >= 30) ==> t.zoom == 15)
      && (forall s :: t.title == Some(s) <==> Holds(d, "window-title", Str(s)))
      && (forall s :: t.cwd == Some(s) <==> Holds(d, "cwd", Str(s)))
  {
    hide RestoreSize;
    StrHeld(d, "profile");
    StrHeld(d, "container");
    StrHeld(d, "window-title");
    StrHeld(d, "cwd");
    NumberHeld(d, "zoom");
    hide StrAt, UIntAt;
  }

  lemma StrHeld(d: Dict, key: string)
    ensures forall s :: Holds(d, key, Str(s)) <==> StrAt(d, key) == Some(s)
  {}

  lemma NumberHeld(d: Dict, key: string)
    ensures forall n: nat :: Holds(d, key, UInt(n)) <==> UIntAt(d, key) == Some(n)
  {}

  /** The size of a restored tab: that of a new one in a maximized window, else the stored one if sizes are
    * restored and one is stored, else the default one. */
  lemma SizeFromDict(e: Setup, settings: Settings, maximized: bool, d: Dict)
    ensures var t := RestoreTab(e, settings, maximized, d);
      && (maximized ==> t.columns == e.initialColumns && t.rows == e.initialRows)
      && (!maximized && !settings.restoreWindowSize ==> t.columns == e.defaultColumns && t.rows == e.defaultRows)
      && (!maximized && settings.restoreWindowSize ==>
            (forall c: nat, r: nat :: Holds(d, "size", Pair(c, r)) ==> t.columns == c && t.rows == r)
            && ((forall c: nat, r: nat :: !Holds(d, "size", Pair(c, r))) ==> t.columns == e.defaultColumns && t.rows == e.defaultRows))
  {
    hide StrAt, UIntAt, BoolAt;
    if PairAt(d, "size").Some? {
      assert Holds(d, "size", Pair(PairAt(d, "size").value.0, PairAt(d, "size").value.1));
    }
  }

  /** What becomes of a tab that is saved and restored.  A profile that is gone gives way to the default
    * one; a container that is gone, or was the profile's own, is left out; so is an empty text; a zoom out
    * of range becomes the normal one. */
  ghost predicate Becomes(e: Setup, settings: Settings, maximized: bool, t: Tab, r: Tab) {
    && r.profile == (if t.profile != "" && t.profile in e.profiles then t.profile else e.defaultProfile)
    && r.container == (if t.container.Some? && t.container.value != "" && t.container.value in e.containers
                          && !IsDefault(e, t.profile, t.container.value)
                       then t.container else None)
    && r.pinned == t.pinned
    && r.zoom == (if 1 <= t.zoom <= 29 then t.zoom else 15)
    && r.title == (if t.title == Some("") then None else t.title)
    && r.cwd == (if t.cwd == Some("") then None else t.cwd)
    && r.columns == (if maximized then e.initialColumns else if settings.restoreWindowSize then t.columns else e.defaultColumns)
    && r.rows == (if maximized then e.initialRows else if settings.restoreWindowSize then t.rows else e.defaultRows)
  }

  lemma BecomesIff(e: Setup, settings: Settings, maximized: bool, t: Tab, r: Tab)
    ensures Becomes(e, settings, maximized, t, r) <==> r == Came(e, settings, maximized, t)
  {}

  lemma TabBecomes(e: Setup, settings: Settings, maximized: bool, t: Tab, active: bool)
    ensures Becomes(e, settings, maximized, t, RestoreTab(e, settings, maximized, SaveTab(e, t, active)))
  {
    TabBack(e, settings, maximized, t, active);
    BecomesIff(e, settings, maximized, t, Came(e, settings, maximized, t));
    hide SaveTab, RestoreTab, Came, Becomes;
  }

  /** A saved tab comes back as described, with the two marks that restoring looks at. */
  lemma TabBack(e: Setup, settings: Settings, maximized: bool, t: Tab, active: bool)
    ensures var d := SaveTab(e, t, active);
      RestoreTab(e, settings, maximized, d) == Came(e, settings, maximized, t)
      && BoolAt(d, "pinned") == t.pinned && BoolAt(d, "active") == active
  {
    SavedStrings(e, t, active);
    SavedOthers(e, t, active);
    hide SaveTab, StrAt, BoolAt, PairAt, UIntAt;
  }

  /** What a tab needs in order to come back unchanged. */
  predicate Lasting(e: Setup, settings: Settings, maximized: bool, t: Tab) {
    && ((t.profile != "" && t.profile in e.profiles) || t.profile == e.defaultProfile)
    && (t.title.Some? ==> t.title.value != "") && (t.cwd.Some? ==> t.cwd.value != "")
    && (t.container.Some? ==>
          t.container != DefaultContainer(e, t.profile) && t.container.value != "" && t.container.value in e.containers)
    && ZOOM_FIRST <= t.zoom < ZOOM_LAST
    && (t.columns, t.rows) == if maximized then (e.initialColumns, e.initialRows)
                              else if settings.restoreWindowSize then (t.columns, t.rows)
                              else (e.defaultColumns, e.defaultRows)
  }

  lemma LastingIff(e: Setup, settings: Settings, maximized: bool, t: Tab)
    ensures Came(e, settings, maximized, t) == t <==> Lasting(e, settings, maximized, t)
  {}

  // ---------- one window ----------

  /** The first i tabs of a window, filled in without the detour over stored values. */
  function FillTo(e: Setup, settings: Settings, keepAll: bool, w: Window, i: nat): Filling
    requires i <= |w.tabs|
  {
    if i == 0 then NOTHING
    else
      var f := FillTo(e, settings, keepAll, w, i - 1);
      if keepAll || w.tabs[i - 1].pinned then
        AddTab(f, Came(e, settings, w.maximized, w.tabs[i - 1]), w.active == Some(i - 1))
      else f
  }

  lemma {:induction false} FillSaved(e: Setup, settings: Settings, all: bool, w: Window, i: nat)
    requires i <= |w.tabs|
    ensures var keepAll := all && settings.restoreSession;
      Fill(e, settings, w.maximized, SaveTabs(e, all, w, i), FillTo(e, settings, keepAll, w, i))
        == FillTo(e, settings, keepAll, w, |w.tabs|)
    decreases |w.tabs| - i
  {
    hide SaveTab, RestoreTab, Came, AddTab;
    if i < |w.tabs| {
      var d := SaveTab(e, w.tabs[i], w.active == Some(i));
      TabBack(e, settings, w.maximized, w.tabs[i], w.active == Some(i));
      FillSaved(e, settings, all, w, i + 1);
      if all || w.tabs[i].pinned {
        assert SaveTabs(e, all, w, i) == [d] + SaveTabs(e, all, w, i + 1);
        assert SaveTabs(e, all, w, i)[1..] == SaveTabs(e, all, w, i + 1);
      } else {
        assert SaveTabs(e, all, w, i) == SaveTabs(e, all, w, i + 1);
      }
    }
  }

  lemma WindowLookups(e: Setup, all: bool, w: Window)
    ensures var d := SaveWindow(e, all, w);
      BoolAt(d, "maximized") == w.maximized && DictsAt(d, "tabs") == Some(SaveTabs(e, all, w, 0))
  {}

  /** What becomes of a window. */
  function WindowCame(e: Setup, settings: Settings, keepAll: bool, w: Window): Option<Window> {
    var f := FillTo(e, settings, keepAll, w, |w.tabs|);
    if Empty(f) then None
    else
      var g := Finish(e, settings, f);
      Some(Window(w.maximized, g.pinned + g.others, Some(Position(g))))
  }

  lemma WindowBack(e: Setup, settings: Settings, all: bool, w: Window)
    ensures RestoreWindow(e, settings, SaveWindow(e, all, w)) == WindowCame(e, settings, all && settings.restoreSession, w)
  {
    WindowLookups(e, all, w);
    FillSaved(e, settings, all, w, 0);
    hide SaveWindow, BoolAt, DictsAt, Fill, FillTo, SaveTabs, Finish;
    FillNone(e, settings, all && settings.restoreSession, w);
  }

  lemma FillNone(e: Setup, settings: Settings, keepAll: bool, w: Window)
    ensures FillTo(e, settings, keepAll, w, 0) == NOTHING
  {}

  // ---------- order and selection ----------

  predicate PinnedFirst(tabs: seq<Tab>) {
    forall i, j :: 0 <= i < j < |tabs| && tabs[j].pinned ==> tabs[i].pinned
  }

  /** How many of the first i tabs are pinned. */
  function PinnedUpTo(tabs: seq<Tab>, i: nat): (n: nat)
    requires i <= |tabs|
    ensures n <= i
  {
    if i == 0 then 0 else PinnedUpTo(tabs, i - 1) + if tabs[i - 1].pinned then 1 else 0
  }

  /** Where a tab goes: among the pinned ones or the others, after those before it. */
  function PlaceOf(tabs: seq<Tab>, i: nat): Place
    requires i < |tabs|
  {
    if tabs[i].pinned then Pinned(PinnedUpTo(tabs, i)) else Other(i - PinnedUpTo(tabs, i))
  }

  predicate Keeps(keepAll: bool, t: Tab) { keepAll || t.pinned }

  function TabAt(f: Filling, p: Place): Option<Tab> {
    match p
    case Pinned(i) => if i < |f.pinned| then Some(f.pinned[i]) else None
    case Other(i) => if i < |f.others| then Some(f.others[i]) else None
  }

  /** The i tabs looked at so far are in their places, and nothing else is there. */
  ghost predicate InPlace(e: Setup, settings: Settings, keepAll: bool, w: Window, i: nat, f: Filling) {
    && i <= |w.tabs|
    && |f.pinned| == PinnedUpTo(w.tabs, i)
    && |f.others| == (if keepAll then i - PinnedUpTo(w.tabs, i) else 0)
    && (forall j :: 0 <= j < |f.pinned| ==> f.pinned[j].pinned)
    && (forall j :: 0 <= j < |f.others| ==> !f.others[j].pinned)
    && (forall j :: 0 <= j < i && Keeps(keepAll, w.tabs[j]) ==>
          TabAt(f, PlaceOf(w.tabs, j)) == Some(Came(e, settings, w.maximized, w.tabs[j])))
  }

  ghost predicate Chosen(keepAll: bool, w: Window, i: nat, f: Filling) {
    && i <= |w.tabs|
    && f.active == (if w.active.Some? && w.active.value < i && Keeps(keepAll, w.tabs[w.active.value])
                    then Some(PlaceOf(w.tabs, w.active.value)) else None)
    && (keepAll && i > 0 ==> f.first == PlaceOf(w.tabs, 0))
  }

  lemma AddInPlace(e: Setup, settings: Settings, keepAll: bool, w: Window, i: nat, f: Filling, active: bool)
    requires i < |w.tabs| && InPlace(e, settings, keepAll, w, i, f) && Keeps(keepAll, w.tabs[i])
    ensures InPlace(e, settings, keepAll, w, i + 1, AddTab(f, Came(e, settings, w.maximized, w.tabs[i]), active))
  {
    var t := Came(e, settings, w.maximized, w.tabs[i]);
    var f' := AddTab(f, t, active);
    assert t.pinned == w.tabs[i].pinned;
    assert TabAt(f', PlaceOf(w.tabs, i)) == Some(t);
    forall j | 0 <= j < i && Keeps(keepAll, w.tabs[j])
      ensures TabAt(f', PlaceOf(w.tabs, j)) == TabAt(f, PlaceOf(w.tabs, j))
    {
      assert TabAt(f, PlaceOf(w.tabs, j)).Some?;
    }
  }

  lemma {:induction false} FilledInPlace(e: Setup, settings: Settings, keepAll: bool, w: Window, i: nat)
    requires i <= |w.tabs|
    ensures InPlace(e, settings, keepAll, w, i, FillTo(e, settings, keepAll, w, i))
  {
    if i > 0 {
      FilledInPlace(e, settings, keepAll, w, i - 1);
      hide AddTab, Came;
      if Keeps(keepAll, w.tabs[i - 1]) {
        AddInPlace(e, settings, keepAll, w, i - 1, FillTo(e, settings, keepAll, w, i - 1), w.active == Some(i - 1));
      }
    }
  }

  lemma AddChosen(e: Setup, settings: Settings, keepAll: bool, w: Window, i: nat, f: Filling)
    requires i < |w.tabs| && InPlace(e, settings, keepAll, w, i, f) && Chosen(keepAll, w, i, f) && Keeps(keepAll, w.tabs[i])
    ensures Chosen(keepAll, w, i + 1, AddTab(f, Came(e, settings, w.maximized, w.tabs[i]), w.active == Some(i)))
  {
    var t := Came(e, settings, w.maximized, w.tabs[i]);
    assert t.pinned == w.tabs[i].pinned;
    hide Came;
    assert |f.pinned| == PinnedUpTo(w.tabs, i) && (keepAll || t.pinned);
    assert keepAll ==> |f.others| == i - PinnedUpTo(w.tabs, i);
    hide InPlace;
    assert i == 0 ==> Empty(f) || !keepAll;
  }

  lemma {:induction false} FilledChosen(e: Setup, settings: Settings, keepAll: bool, w: Window, i: nat)
    requires i <= |w.tabs|
    ensures Chosen(keepAll, w, i, FillTo(e, settings, keepAll, w, i))
  {
    if i > 0 {
      FilledChosen(e, settings, keepAll, w, i - 1);
      FilledInPlace(e, settings, keepAll, w, i - 1);
      hide AddTab, Came, InPlace, PlaceOf;
      if Keeps(keepAll, w.tabs[i - 1]) {
        AddChosen(e, settings, keepAll, w, i - 1, FillTo(e, settings, keepAll, w, i - 1));
      }
    }
  }

  /** The position of a tab when all pinned ones stand first. */
  function Target(tabs: seq<Tab>, i: nat): nat
    requires i < |tabs|
  {
    if tabs[i].pinned then PinnedUpTo(tabs, i) else PinnedUpTo(tabs, |tabs|) + (i - PinnedUpTo(tabs, i))
  }

  lemma TargetFilled(e: Setup, settings: Settings, w: Window, f: Filling, i: nat)
    requires InPlace(e, settings, true, w, |w.tabs|, f) && i < |w.tabs|
    ensures |f.pinned + f.others| == |w.tabs| && Target(w.tabs, i) < |w.tabs|
    ensures (f.pinned + f.others)[Target(w.tabs, i)] == Came(e, settings, w.maximized, w.tabs[i])
  {
    assert Keeps(true, w.tabs[i]);
    var t := Came(e, settings, w.maximized, w.tabs[i]);
    assert TabAt(f, PlaceOf(w.tabs, i)) == Some(t);
    assert |f.pinned| == PinnedUpTo(w.tabs, |w.tabs|) && |f.others| == |w.tabs| - |f.pinned|;
    hide InPlace, Came, PinnedUpTo;
  }

  lemma PinnedThenOthers(f: Filling)
    ensures (forall j :: 0 <= j < |f.pinned| ==> f.pinned[j].pinned) && (forall j :: 0 <= j < |f.others| ==> !f.others[j].pinned) ==>
              PinnedFirst(f.pinned + f.others)
  {}

  lemma TargetsFilled(e: Setup, settings: Settings, w: Window, f: Filling)
    requires InPlace(e, settings, true, w, |w.tabs|, f)
    ensures var tabs := f.pinned + f.others;
      && |tabs| == |w.tabs| && PinnedFirst(tabs)
      && forall i :: 0 <= i < |w.tabs| ==>
           Target(w.tabs, i) < |w.tabs| && tabs[Target(w.tabs, i)] == Came(e, settings, w.maximized, w.tabs[i])
  {
    PinnedThenOthers(f);
    hide Came, Target, PinnedFirst;
    forall i | 0 <= i < |w.tabs|
      ensures Target(w.tabs, i) < |w.tabs| && (f.pinned + f.others)[Target(w.tabs, i)] == Came(e, settings, w.maximized, w.tabs[i])
    {
      TargetFilled(e, settings, w, f, i);
    }
  }

  lemma TargetChosen(e: Setup, settings: Settings, w: Window, f: Filling)
    requires InPlace(e, settings, true, w, |w.tabs|, f) && Chosen(true, w, |w.tabs|, f) && w.tabs != []
    ensures Position(f) == Target(w.tabs, if w.active.Some? && w.active.value < |w.tabs| then w.active.value else 0)
  {
    hide Came;
  }

  lemma WindowCameBack(e: Setup, settings: Settings, w: Window)
    requires settings.restoreSession && w.tabs != []
    ensures var r := RestoreWindow(e, settings, SaveWindow(e, true, w));
      && r.Some? && r.value.maximized == w.maximized && |r.value.tabs| == |w.tabs|
      && (forall i :: 0 <= i < |w.tabs| ==>
            Target(w.tabs, i) < |w.tabs| && r.value.tabs[Target(w.tabs, i)] == Came(e, settings, w.maximized, w.tabs[i]))
      && r.value.active == Some(Target(w.tabs, if w.active.Some? && w.active.value < |w.tabs| then w.active.value else 0))
      && PinnedFirst(r.value.tabs)
  {
    var n := |w.tabs|;
    var f := FillTo(e, settings, true, w, n);
    WindowBack(e, settings, true, w);
    FilledInPlace(e, settings, true, w, n);
    FilledChosen(e, settings, true, w, n);
    hide RestoreWindow, SaveWindow, FillTo, Came, InPlace, Chosen, Position, Target, PinnedFirst, PinnedUpTo;
    TargetsFilled(e, settings, w, f);
    TargetChosen(e, settings, w, f);
  }

  /** Every tab comes back, pinned ones first and otherwise in the old order, and the active tab is the
    * one that was active. */
  lemma WindowKept(e: Setup, settings: Settings, w: Window)
    requires settings.restoreSession && w.tabs != []
    ensures var r := RestoreWindow(e, settings, SaveWindow(e, true, w));
      && r.Some? && r.value.maximized == w.maximized && |r.value.tabs| == |w.tabs|
      && (forall i :: 0 <= i < |w.tabs| ==>
            Target(w.tabs, i) < |w.tabs| && Becomes(e, settings, w.maximized, w.tabs[i], r.value.tabs[Target(w.tabs, i)]))
      && r.value.active == Some(Target(w.tabs, if w.active.Some? && w.active.value < |w.tabs| then w.active.value else 0))
      && PinnedFirst(r.value.tabs)
  {
    WindowCameBack(e, settings, w);
    hide RestoreWindow, SaveWindow, Came, Becomes, Target, PinnedFirst;
    var r := RestoreWindow(e, settings, SaveWindow(e, true, w)).value;
    forall i | 0 <= i < |w.tabs| ensures Becomes(e, settings, w.maximized, w.tabs[i], r.tabs[Target(w.tabs, i)]) {
      BecomesIff(e, settings, w.maximized, w.tabs[i], r.tabs[Target(w.tabs, i)]);
    }
  }

  lemma {:induction false} PinnedPrefix(tabs: seq<Tab>, i: nat)
    requires i <= |tabs| && PinnedFirst(tabs)
    ensures i == 0 || tabs[i - 1].pinned ==> PinnedUpTo(tabs, i) == i
    ensures forall j :: i <= j <= |tabs| && (i == |tabs| || !tabs[i].pinned) ==> PinnedUpTo(tabs, j) == PinnedUpTo(tabs, i)
  {
    if i > 0 && tabs[i - 1].pinned { PinnedPrefix(tabs, i - 1); }
    forall j | i <= j <= |tabs| && (i == |tabs| || !tabs[i].pinned) ensures PinnedUpTo(tabs, j) == PinnedUpTo(tabs, i) {
      NoneAfter(tabs, i, j);
    }
  }

  lemma {:induction false} NoneAfter(tabs: seq<Tab>, i: nat, j: nat)
    requires i <= j <= |tabs| && PinnedFirst(tabs) && (i == |tabs| || !tabs[i].pinned)
    ensures PinnedUpTo(tabs, j) == PinnedUpTo(tabs, i)
  {
    if i < j { NoneAfter(tabs, i, j - 1); }
  }

  /** In a window that has its pinned tabs first, every tab keeps its position. */
  lemma TargetSame(tabs: seq<Tab>, i: nat)
    requires i < |tabs| && PinnedFirst(tabs)
    ensures Target(tabs, i) == i
  {
    if tabs[i].pinned {
      PinnedPrefix(tabs, i + 1);
      assert PinnedUpTo(tabs, i + 1) == PinnedUpTo(tabs, i) + 1;
    } else {
      NoneAfter(tabs, i, |tabs|);
    }
  }

  /** What a window needs in order to come back unchanged. */
  ghost predicate WindowLasts(e: Setup, settings: Settings, w: Window) {
    && w.tabs != [] && PinnedFirst(w.tabs)
    && w.active.Some? && w.active.value < |w.tabs|
    && forall i :: 0 <= i < |w.tabs| ==> Lasting(e, settings, w.maximized, w.tabs[i])
  }

  /** The round trip of a window, with sessions restored, is the identity exactly for these windows. */
  lemma WindowRoundTripIff(e: Setup, settings: Settings, w: Window)
    requires settings.restoreSession
    ensures RestoreWindow(e, settings, SaveWindow(e, true, w)) == Some(w) <==> WindowLasts(e, settings, w)
  {
    if w.tabs == [] {
      WindowBack(e, settings, true, w);
    } else {
      WindowCameBack(e, settings, w);
      hide RestoreWindow, SaveWindow;
      var r := RestoreWindow(e, settings, SaveWindow(e, true, w)).value;
      if PinnedFirst(w.tabs) {
        SamePlaces(e, settings, w, r);
      }
    }
  }

  lemma SamePlaces(e: Setup, settings: Settings, w: Window, r: Window)
    requires w.tabs != [] && PinnedFirst(w.tabs)
    requires r.maximized == w.maximized && |r.tabs| == |w.tabs|
    requires forall i :: 0 <= i < |w.tabs| ==>
               Target(w.tabs, i) < |w.tabs| && r.tabs[Target(w.tabs, i)] == Came(e, settings, w.maximized, w.tabs[i])
    requires r.active == Some(Target(w.tabs, if w.active.Some? && w.active.value < |w.tabs| then w.active.value else 0))
    ensures r == w <==> WindowLasts(e, settings, w)
  {
    forall i | 0 <= i < |w.tabs| ensures Target(w.tabs, i) == i { TargetSame(w.tabs, i); }
    forall i | 0 <= i < |w.tabs| ensures r.tabs[i] == w.tabs[i] <==> Lasting(e, settings, w.maximized, w.tabs[i]) {
      assert r.tabs[Target(w.tabs, i)] == Came(e, settings, w.maximized, w.tabs[i]);
      LastingIff(e, settings, w.maximized, w.tabs[i]);
    }
    hide Came, Lasting, Target;
    assert r.tabs == w.tabs <==> forall i :: 0 <= i < |w.tabs| ==> r.tabs[i] == w.tabs[i];
  }

  // ---------- the whole session ----------

  lemma StateLookups(e: Setup, settings: Settings, ws: seq<Window>)
    ensures var d := Save(e, settings, ws);
      UIntAt(d, "version") == Some(1) && DictsAt(d, "windows") == Some(SaveWindows(e, settings.restoreSession, ws))
  {}

  lemma {:induction false} WindowsShrink(e: Setup, settings: Settings, ds: seq<Dict>)
    ensures |RestoreWindows(e, settings, ds)| <= |ds|
  {
    if ds != [] { WindowsShrink(e, settings, ds[1..]); }
  }

  lemma {:induction false} SavedCount(e: Setup, all: bool, ws: seq<Window>)
    ensures |SaveWindows(e, all, ws)| == |ws|
  {
    if ws != [] { SavedCount(e, all, ws[1..]); }
  }

  lemma {:induction false} WindowsRoundTripIff(e: Setup, settings: Settings, ws: seq<Window>)
    requires settings.restoreSession
    ensures RestoreWindows(e, settings, SaveWindows(e, true, ws)) == ws <==> forall w :: w in ws ==> WindowLasts(e, settings, w)
  {
    if ws != [] {
      hide RestoreWindow, SaveWindow, WindowLasts;
      var w, rest := ws[0], ws[1..];
      var ds := SaveWindows(e, true, ws);
      assert ds[1..] == SaveWindows(e, true, rest);
      WindowsRoundTripIff(e, settings, rest);
      WindowRoundTripIff(e, settings, w);
      WindowsShrink(e, settings, ds[1..]);
      SavedCount(e, true, rest);
      var r, tail := RestoreWindow(e, settings, ds[0]), RestoreWindows(e, settings, ds[1..]);
      assert ws == [w] + rest;
      if r.Some? {
        assert ([r.value] + tail)[1..] == tail && ([r.value] + tail)[0] == r.value;
      } else {
        assert |[] + tail| < |ws|;
      }
    }
  }

  /** Saving and restoring the session is the identity exactly for windows that last. */
  lemma SessionRoundTripIff(e: Setup, settings: Settings, ws: seq<Window>)
    requires settings.restoreSession
    ensures Restore(e, settings, Save(e, settings, ws)) == ws <==> forall w :: w in ws ==> WindowLasts(e, settings, w)
  {
    StateLookups(e, settings, ws);
    WindowsRoundTripIff(e, settings, ws);
    hide Save, RestoreWindows, SaveWindows, WindowLasts;
  }

  // ---------- sessions not restored ----------

  lemma {:induction false} WindowsOff(e: Setup, settings: Settings, ws: seq<Window>)
    requires !settings.restoreSession
    ensures RestoreWindows(e, settings, SaveWindows(e, true, ws)) == RestoreWindows(e, settings, SaveWindows(e, false, ws))
  {
    if ws != [] {
      hide RestoreWindow, SaveWindow;
      WindowsOff(e, settings, ws[1..]);
      WindowBack(e, settings, true, ws[0]);
      WindowBack(e, settings, false, ws[0]);
      assert SaveWindows(e, true, ws)[1..] == SaveWindows(e, true, ws[1..]);
      assert SaveWindows(e, false, ws)[1..] == SaveWindows(e, false, ws[1..]);
    }
  }

  /** With restoring off it makes no difference how the session was saved. */
  lemma OffEitherWay(e: Setup, settings: Settings, on: Settings, off: Settings, ws: seq<Window>)
    requires !settings.restoreSession && on.restoreSession && !off.restoreSession
    ensures Restore(e, settings, Save(e, on, ws)) == Restore(e, settings, Save(e, off, ws))
  {
    StateLookups(e, on, ws);
    StateLookups(e, off, ws);
    WindowsOff(e, settings, ws);
    hide Save, RestoreWindows, SaveWindows;
  }

  lemma PinnedFilled(e: Setup, settings: Settings, w: Window, f: Filling)
    requires InPlace(e, settings, false, w, |w.tabs|, f)
    ensures |f.pinned| == PinnedUpTo(w.tabs, |w.tabs|) && f.others == []
    ensures forall i :: 0 <= i < |w.tabs| && w.tabs[i].pinned ==>
              PinnedUpTo(w.tabs, i) < |f.pinned| && f.pinned[PinnedUpTo(w.tabs, i)] == Came(e, settings, w.maximized, w.tabs[i])
  {
    hide Came, PinnedUpTo;
    forall i | 0 <= i < |w.tabs| && w.tabs[i].pinned
      ensures PinnedUpTo(w.tabs, i) < |f.pinned| && f.pinned[PinnedUpTo(w.tabs, i)] == Came(e, settings, w.maximized, w.tabs[i])
    {
      assert Keeps(false, w.tabs[i]);
      assert TabAt(f, PlaceOf(w.tabs, i)) == Some(Came(e, settings, w.maximized, w.tabs[i]));
    }
  }

  lemma PinnedCameBack(e: Setup, settings: Settings, all: bool, w: Window)
    requires !settings.restoreSession
    ensures var r := RestoreWindow(e, settings, SaveWindow(e, all, w)); var k := PinnedUpTo(w.tabs, |w.tabs|);
      if k == 0 then r == None
      else
        && r.Some? && r.value.maximized == w.maximized && |r.value.tabs| == k + 1
        && r.value.tabs[k] == NewTab(e, e.defaultProfile)
        && (forall i :: 0 <= i < |w.tabs| && w.tabs[i].pinned ==>
              PinnedUpTo(w.tabs, i) < k && r.value.tabs[PinnedUpTo(w.tabs, i)] == Came(e, settings, w.maximized, w.tabs[i]))
        && r.value.active == Some(if w.active.Some? && w.active.value < |w.tabs| && w.tabs[w.active.value].pinned
                                  then PinnedUpTo(w.tabs, w.active.value) else k)
  {
    var n := |w.tabs|;
    var f := FillTo(e, settings, false, w, n);
    WindowBack(e, settings, all, w);
    FilledInPlace(e, settings, false, w, n);
    FilledChosen(e, settings, false, w, n);
    hide RestoreWindow, SaveWindow, FillTo, Came, InPlace, PinnedUpTo, NewTab;
    PinnedFilled(e, settings, w, f);
  }

  /** A window then has its pinned tabs, in order, and one new default tab; the new tab is active unless
    * a pinned one was.  A window without pinned tabs does not come back. */
  lemma WindowOff(e: Setup, settings: Settings, all: bool, w: Window)
    requires !settings.restoreSession
    ensures var r := RestoreWindow(e, settings, SaveWindow(e, all, w)); var k := PinnedUpTo(w.tabs, |w.tabs|);
      if k == 0 then r == None
      else
        && r.Some? && r.value.maximized == w.maximized && |r.value.tabs| == k + 1
        && r.value.tabs[k] == Tab(e.defaultProfile, false, e.initialColumns, e.initialRows, 15, None, None, None)
        && (forall i :: 0 <= i < |w.tabs| && w.tabs[i].pinned ==>
              PinnedUpTo(w.tabs, i) < k && Becomes(e, settings, w.maximized, w.tabs[i], r.value.tabs[PinnedUpTo(w.tabs, i)]))
        && r.value.active == Some(if w.active.Some? && w.active.value < |w.tabs| && w.tabs[w.active.value].pinned
                                  then PinnedUpTo(w.tabs, w.active.value) else k)
  {
    PinnedCameBack(e, settings, all, w);
    hide RestoreWindow, SaveWindow, Came, Becomes, PinnedUpTo;
    var r := RestoreWindow(e, settings, SaveWindow(e, all, w));
    if r.Some? {
      forall i | 0 <= i < |w.tabs| && w.tabs[i].pinned
        ensures Becomes(e, settings, w.maximized, w.tabs[i], r.value.tabs[PinnedUpTo(w.tabs, i)])
      {
        BecomesIff(e, settings, w.maximized, w.tabs[i], r.value.tabs[PinnedUpTo(w.tabs, i)]);
      }
    }
  }

  // ---------- what a state looks like ----------

  /** The keys of a state and of a window in it; as many windows are stored as there are. */
  lemma StateKeys(e: Setup, settings: Settings, ws: seq<Window>)
    ensures var d := Save(e, settings, ws);
      && d.Keys == {"version", "windows"} && d["version"] == UInt(1) && d["windows"].Dicts?
      && |d["windows"].items| == |ws|
      && forall i :: 0 <= i < |ws| ==> WindowKeys(ws[i], settings.restoreSession, d["windows"].items[i])
  {
    StateLookups(e, settings, ws);
    SavedCount(e, settings.restoreSession, ws);
    var ds := SaveWindows(e, settings.restoreSession, ws);
    forall i | 0 <= i < |ws| ensures WindowKeys(ws[i], settings.restoreSession, ds[i]) {
      SavedWindowAt(e, settings.restoreSession, ws, i);
      WindowSavedKeys(e, settings.restoreSession, ws[i]);
    }
  }

  ghost predicate WindowKeys(w: Window, all: bool, d: Dict) {
    && d.Keys == (if w.maximized then {"maximized", "tabs"} else {"tabs"})
    && (w.maximized ==> d["maximized"] == Bool(true))
    && d["tabs"].Dicts? && |d["tabs"].items| == if all then |w.tabs| else PinnedUpTo(w.tabs, |w.tabs|)
  }

  lemma {:induction false} SavedWindowAt(e: Setup, all: bool, ws: seq<Window>, i: nat)
    requires i < |ws| == |SaveWindows(e, all, ws)|
    ensures SaveWindows(e, all, ws)[i] == SaveWindow(e, all, ws[i])
  {
    if i > 0 {
      SavedCount(e, all, ws[1..]);
      SavedWindowAt(e, all, ws[1..], i - 1);
    }
  }

  lemma {:induction false} SavedTabCount(e: Setup, all: bool, w: Window, i: nat)
    requires i <= |w.tabs|
    ensures |SaveTabs(e, all, w, i)| == if all then |w.tabs| - i else PinnedUpTo(w.tabs, |w.tabs|) - PinnedUpTo(w.tabs, i)
    decreases |w.tabs| - i
  {
    hide SaveTab;
    if i < |w.tabs| { SavedTabCount(e, all, w, i + 1); }
  }

  lemma WindowSavedKeys(e: Setup, all: bool, w: Window)
    ensures WindowKeys(w, all, SaveWindow(e, all, w))
  {
    SavedTabCount(e, all, w, 0);
    hide SaveTabs;
  }

  /** Without a version, or without a list of windows, nothing is restored; else as many windows come as have
    * a tab to bring back. */
  lemma {:induction false} WhatIsRestored(e: Setup, settings: Settings, d: Dict)
    ensures (forall v: nat :: !Holds(d, "version", UInt(v))) || (forall ds :: !Holds(d, "windows", Dicts(ds))) ==>
              Restore(e, settings, d) == []
    ensures forall v: nat, ds :: Holds(d, "version", UInt(v)) && Holds(d, "windows", Dicts(ds)) ==>
              |Restore(e, settings, d)| == Lively(settings, ds)
  {
    NumberHeld(d, "version");
    if "windows" in d && d["windows"].Dicts? {
      assert Holds(d, "windows", Dicts(d["windows"].items));
      LivelyRestored(e, settings, d["windows"].items);
    }
  }

  /** A tab that restoring takes up: any tab when sessions are restored, else a pinned one. */
  predicate TakenUp(settings: Settings, d: Dict) { settings.restoreSession || Holds(d, "pinned", Bool(true)) }

  ghost predicate HasTabs(settings: Settings, d: Dict) {
    "tabs" in d && d["tabs"].Dicts? && exists i :: 0 <= i < |d["tabs"].items| && TakenUp(settings, d["tabs"].items[i])
  }

  /** How many of the windows have a tab to bring back. */
  ghost function Lively(settings: Settings, ds: seq<Dict>): nat {
    if ds == [] then 0 else (if HasTabs(settings, ds[0]) then 1 else 0) + Lively(settings, ds[1..])
  }

  lemma {:induction false} LivelyRestored(e: Setup, settings: Settings, ds: seq<Dict>)
    ensures |RestoreWindows(e, settings, ds)| == Lively(settings, ds)
  {
    hide RestoreWindow, HasTabs;
    if ds != [] {
      LivelyWindow(e, settings, ds[0]);
      LivelyRestored(e, settings, ds[1..]);
    }
  }

  lemma LivelyWindow(e: Setup, settings: Settings, d: Dict)
    ensures RestoreWindow(e, settings, d).Some? <==> HasTabs(settings, d)
  {
    hide Fill, Finish, Position;
    var ds := DictsAt(d, "tabs").GetOr([]);
    FillEmptyIff(e, settings, BoolAt(d, "maximized"), ds, NOTHING);
  }

  lemma {:induction false} FillEmptyIff(e: Setup, settings: Settings, maximized: bool, ds: seq<Dict>, f: Filling)
    ensures Empty(Fill(e, settings, maximized, ds, f)) <==>
            Empty(f) && forall i :: 0 <= i < |ds| ==> !TakenUp(settings, ds[i])
    decreases |ds|
  {
    if ds != [] {
      var t := RestoreTab(e, settings, maximized, ds[0]);
      hide RestoreTab;
      assert TakenUp(settings, ds[0]) == Comes(settings, ds[0]);
      var g := if Comes(settings, ds[0]) then AddTab(f, t, BoolAt(ds[0], "active")) else f;
      FillEmptyIff(e, settings, maximized, ds[1..], g);
      assert forall i :: 0 < i < |ds| ==> ds[i] == ds[1..][i - 1];
      assert (forall i :: 0 <= i < |ds| ==> !TakenUp(settings, ds[i])) <==>
             !TakenUp(settings, ds[0]) && forall i :: 0 <= i < |ds[1..]| ==> !TakenUp(settings, ds[1..][i]);
    }
  }
}
