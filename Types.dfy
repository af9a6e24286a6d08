/** The entities the screens share: the two tabs and the entries of the location menu. */
module Types {

  /** `TabType`: the municipality forecast or the mountain zone bulletin. */
  datatype Tab = Localidad | Zona

  /** The `type` of a location entry. */
  datatype Kind = Municipio | Montana

  /** `LocationItem`: an AEMET identifier, a display name and its kind. */
  datatype LocationItem = LocationItem(id: string, name: string, kind: Kind)

  /** The tab's string value. */
  function TabName(tab: Tab): string
  {
    match tab
    case Localidad => "localidad"
    case Zona => "zona"
  }
}
