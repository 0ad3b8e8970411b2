/** The browser's string-keyed local storage, shared by the login gate and the dashboard. */
module Storage {
  import opened Wrappers

  const PasswordKey := "maj_app_password"
  const ShipsKey := "maj_ships_db"
  const SurveyorsKey := "maj_surveyors_db"
  const ClassesKey := "maj_classes_db"

  class Store {
    var entries: map<string, string>

    constructor (initial: map<string, string>)
      ensures entries == initial
    {
      entries := initial;
    }

    /** `localStorage.getItem(key)`: the stored string, or null when the key is absent. */
    function GetItem(key: string): (r: Option<string>)
      reads this
      ensures r.Some? <==> key in entries
      ensures r.Some? ==> r.value == entries[key]
    {
      if key in entries then Some(entries[key]) else None
    }

    /** `localStorage.setItem(key, value)`. */
    method SetItem(key: string, value: string)
      modifies this
      ensures entries == old(entries)[key := value]
    {
      entries := entries[key := value];
    }
  }
}
