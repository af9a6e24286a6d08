/** The application shell: the selected tab, the selected location and the menu flag, the
    handlers that change them, the name shown for the mountain view, and the choice of the
    view under the tabs. The mountain zones of the unshown configuration are given to the
    constructor. */
module App {
  import opened Wrappers
  import opened JsValue
  import opened Seqs
  import opened Types
  import opened UseWeather

  /** Panticosa, the municipality shown before any choice. */
  const DefaultMunicipio: string := "22170"
  const DefaultName: string := "Panticosa"

  /** What is drawn under the tabs. */
  datatype View =
    | ErrorView(message: string)
    | Skeleton
    | DailyView(weather: Value)
    | NoDataNotice
    | MountainView(weather: Value, nivologica: Value, activeName: string)
    | Placeholder

  function HasId(id: string): LocationItem -> bool
  {
    (l: LocationItem) => l.id == id
  }

  class AppShell {
    var activeTab: Tab
    var selectedId: string
    var isMenuOpen: bool
    const zones: seq<LocationItem>

    /** The initial state: the `localidad` tab on Panticosa, the menu closed. */
    constructor (zones: seq<LocationItem>)
      requires |zones| > 0
      ensures activeTab == Localidad && selectedId == DefaultMunicipio && !isMenuOpen
      ensures this.zones == zones
    {
      activeTab := Localidad;
      selectedId := DefaultMunicipio;
      isMenuOpen := false;
      this.zones := zones;
    }

    /** A pick in the menu: the tab follows the kind of the location, the location is
        selected and the menu closes. */
    method HandleSelection(id: string, kind: Kind)
      modifies this
      ensures activeTab == (if kind == Municipio then Localidad else Zona)
      ensures selectedId == id
      ensures !isMenuOpen
    {
      activeTab := if kind == Municipio then Localidad else Zona;
      selectedId := id;
      isMenuOpen := false;
    }

    /** A tab change: the tab is set and the location goes back to that tab's default, the
        first zone for the zone tab; the menu is left as it is. */
    method HandleTabChange(tab: Tab)
      requires |zones| > 0
      modifies this
      ensures activeTab == tab
      ensures selectedId == if tab == Localidad then DefaultMunicipio else zones[0].id
      ensures isMenuOpen == old(isMenuOpen)
    {
      activeTab := tab;
      if tab == Localidad {
        selectedId := DefaultMunicipio;
      } else {
        selectedId := zones[0].id;
      }
    }

    /** The header's menu button flips the flag and nothing else. */
    method ToggleMenu()
      modifies this
      ensures isMenuOpen == !old(isMenuOpen)
      ensures activeTab == old(activeTab) && selectedId == old(selectedId)
    {
      isMenuOpen := !isMenuOpen;
    }

    /** The menu's close button. */
    method CloseMenu()
      modifies this
      ensures !isMenuOpen
      ensures activeTab == old(activeTab) && selectedId == old(selectedId)
    {
      isMenuOpen := false;
    }

    /** `getActiveName()`: on the zone tab the name of the first zone with the selected id,
        or ""; otherwise the name of the first such municipality, or "Panticosa". A
        missing or empty name counts as missing. */
    function ActiveName(municipios: Option<seq<LocationItem>>): (r: string)
      reads this
      ensures activeTab == Zona ==>
                r == "" || exists i :: 0 <= i < |zones| && zones[i].id == selectedId && zones[i].name == r
      ensures activeTab == Localidad ==> r != ""
      ensures activeTab == Localidad && r != DefaultName ==>
                municipios.Some?
                && exists i :: 0 <= i < |municipios.value| && municipios.value[i].id == selectedId
                               && municipios.value[i].name == r
    {
      if activeTab == Zona then
        match Find(zones, HasId(selectedId))
        case Some(z) => z.name
        case None => ""
      else
        var found := if municipios.Some? then Find(municipios.value, HasId(selectedId)) else None;
        if found.Some? && found.value.name != "" then found.value.name else DefaultName
    }

    /** The view: an error first, then the loading skeleton, then, with data, the daily view
        (or the no-data notice) on the `localidad` tab and the mountain view on the other,
        and the placeholder without data. */
    function SelectView(error: Option<string>, loading: bool,
                        data: Option<WeatherQueryResponse>,
                        municipios: Option<seq<LocationItem>>): (v: View)
      reads this
      ensures v.ErrorView? <==> error.Some? && error.value != ""
      ensures v.Skeleton? <==> !v.ErrorView? && loading
      ensures v.Placeholder? <==> !v.ErrorView? && !loading && data.None?
      ensures v.DailyView? ==> activeTab == Localidad && Truthy(v.weather)
      ensures v.MountainView? ==> activeTab == Zona && v.activeName == ActiveName(municipios)
    {
      if error.Some? && error.value != "" then ErrorView(error.value)
      else if loading then Skeleton
      else match data
        case None => Placeholder
        case Some(d) =>
          if activeTab == Localidad then
            (if Truthy(d.weather) then DailyView(d.weather) else NoDataNotice)
          else MountainView(d.weather, d.nivologica, ActiveName(municipios))
    }
  }

  /** The name is looked up, not invented: on the zone tab it is the name of the first zone
      with the selected id, and "" when no zone has it; on the `localidad` tab it is the
      name of the first municipality with the selected id when that name is non-empty, and
      "Panticosa" when the list is missing, no municipality has the id, or the first one
      that has it has an empty name. */
  lemma ActiveNameLookup(app: AppShell, municipios: Option<seq<LocationItem>>, i: nat)
    ensures app.activeTab == Zona && i < |app.zones| && app.zones[i].id == app.selectedId
            && (forall k :: 0 <= k < i ==> app.zones[k].id != app.selectedId) ==>
              app.ActiveName(municipios) == app.zones[i].name
    ensures app.activeTab == Zona
            && (forall k :: 0 <= k < |app.zones| ==> app.zones[k].id != app.selectedId) ==>
              app.ActiveName(municipios) == ""
    ensures app.activeTab == Localidad && municipios.Some? && i < |municipios.value|
            && municipios.value[i].id == app.selectedId
            && (forall k :: 0 <= k < i ==> municipios.value[k].id != app.selectedId) ==>
              app.ActiveName(municipios)
              == (if municipios.value[i].name != "" then municipios.value[i].name else DefaultName)
    ensures app.activeTab == Localidad
            && (municipios.None?
                || forall k :: 0 <= k < |municipios.value| ==> municipios.value[k].id != app.selectedId) ==>
              app.ActiveName(municipios) == DefaultName
  {
    if app.activeTab == Zona && i < |app.zones| && app.zones[i].id == app.selectedId {
      assert HasId(app.selectedId)(app.zones[i]);
    }
    if app.activeTab == Localidad && municipios.Some? && i < |municipios.value|
       && municipios.value[i].id == app.selectedId {
      assert HasId(app.selectedId)(municipios.value[i]);
    }
  }

  /** An error hides whatever is loading or loaded. */
  lemma ErrorHasPriority(app: AppShell, message: string, l1: bool, l2: bool,
                         d1: Option<WeatherQueryResponse>, d2: Option<WeatherQueryResponse>,
                         m: Option<seq<LocationItem>>)
    requires message != ""
    ensures app.SelectView(Some(message), l1, d1, m) == app.SelectView(Some(message), l2, d2, m)
            == ErrorView(message)
  {
  }

  /** With data on the `localidad` tab the daily view shows exactly when the forecast is
      there; the zone tab always shows the mountain view with the data it got. */
  lemma DataViews(app: AppShell, d: WeatherQueryResponse, m: Option<seq<LocationItem>>)
    ensures app.activeTab == Localidad ==>
              (app.SelectView(None, false, Some(d), m) == DailyView(d.weather) <==> Truthy(d.weather))
    ensures app.activeTab == Zona ==>
              app.SelectView(None, false, Some(d), m)
              == MountainView(d.weather, d.nivologica, app.ActiveName(m))
  {
  }

  /** A session: start, pick a zone in the menu, go back to the `localidad` tab. The forecast
      query is enabled all along as long as the zone has an id. */
  method Session(zones: seq<LocationItem>, zoneId: string) returns (app: AppShell)
    requires |zones| > 0 && zoneId != ""
    ensures app.activeTab == Localidad && app.selectedId == DefaultMunicipio && !app.isMenuOpen
  {
    app := new AppShell(zones);
    assert Enabled(app.selectedId, app.activeTab) by { EnabledIff(app.selectedId, app.activeTab); }
    app.ToggleMenu();
    app.HandleSelection(zoneId, Montana);
    assert app.activeTab == Zona && Enabled(app.selectedId, app.activeTab) by {
      EnabledIff(app.selectedId, app.activeTab);
    }
    app.HandleTabChange(Localidad);
  }
}
