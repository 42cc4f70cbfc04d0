/** The theme store: the selected theme, chosen from a fixed catalog by id, and the
    selected id written to storage. Palette colours are not modelled. */
module ThemeStore {
  import opened Options
  import opened Storage

  /** A catalog entry; only the fields the selection logic can observe. */
  datatype Theme = Theme(id: string, name: string, isDark: bool)

  /** The catalog, in the program's order. */
  const Themes: seq<Theme> := [
    Theme("default-dark", "Default Dark", true),
    Theme("ocean-breeze", "Ocean Breeze", true),
    Theme("forest-light", "Forest Light", false),
    Theme("sunset-vibes", "Sunset Vibes", true),
    Theme("minimal-light", "Minimal Light", false)
  ]

  /** The storage key the selected id is written under. */
  const ThemeKey := "theme"

  predicate DistinctIds(themes: seq<Theme>)
  {
    forall i, j :: 0 <= i < j < |themes| ==> themes[i].id != themes[j].id
  }

  lemma CatalogShape()
    ensures |Themes| == 5 && DistinctIds(Themes)
  {
  }

  /** `themes.find(t => t.id === id)`, as the index of the first match. */
  function FindIndex(themes: seq<Theme>, id: string): (r: Option<nat>)
    ensures r.Some? ==> r.value < |themes| && themes[r.value].id == id
    ensures r.Some? ==> forall j :: 0 <= j < r.value ==> themes[j].id != id
    ensures r.None? ==> forall j :: 0 <= j < |themes| ==> themes[j].id != id
    decreases |themes|
  {
    if themes == [] then None
    else if themes[0].id == id then Some(0)
    else match FindIndex(themes[1..], id)
      case None => None
      case Some(k) => Some(k + 1)
  }

  /** `themes.find(t => t.id === id) || themes[0]`: the first theme with that id, or the
      first theme of the catalog when none has it. */
  function FindOrDefault(themes: seq<Theme>, id: string): (r: Theme)
    requires |themes| > 0
    ensures r in themes
    ensures (exists i :: 0 <= i < |themes| && themes[i].id == id) ==>
      r.id == id && exists k :: 0 <= k < |themes| && themes[k] == r && forall j :: 0 <= j < k ==> themes[j].id != id
    ensures (forall i :: 0 <= i < |themes| ==> themes[i].id != id) ==> r == themes[0]
  {
    match FindIndex(themes, id)
    case Some(k) => themes[k]
    case None => themes[0]
  }

  /** With distinct ids, selecting a catalog theme by its id gives that theme back. */
  lemma {:induction false} SelectById(themes: seq<Theme>, k: nat)
    requires DistinctIds(themes) && k < |themes|
    ensures FindOrDefault(themes, themes[k].id) == themes[k]
  {
    var r := FindOrDefault(themes, themes[k].id);
    var m :| 0 <= m < |themes| && themes[m] == r && forall j :: 0 <= j < m ==> themes[j].id != themes[k].id;
    assert m == k;
  }

  /** An id outside the catalog selects the default theme, whose id then differs from the
      id the store writes to storage. */
  lemma UnknownIdDiverges(themeId: string)
    requires forall i :: 0 <= i < |Themes| ==> Themes[i].id != themeId
    ensures FindOrDefault(Themes, themeId) == Themes[0]
    ensures FindOrDefault(Themes, themeId).id != themeId
  {
    assert Themes[0].id != themeId;
  }

  class Store {
    var currentTheme: Theme
    const storage: KeyValueStore

    constructor (storage: KeyValueStore)
      ensures currentTheme == Themes[0] && this.storage == storage
    {
      currentTheme := Themes[0];
      this.storage := storage;
    }

    /** `setTheme`: select by id with fallback, then write the given id verbatim. */
    method SetTheme(themeId: string)
      modifies this, storage
      ensures currentTheme == FindOrDefault(Themes, themeId)
      ensures storage.entries == old(storage.entries)[ThemeKey := Text(themeId)]
    {
      var theme := FindOrDefault(Themes, themeId);
      currentTheme := theme;
      storage.SetItem(ThemeKey, Text(themeId));
    }

    /** The start-up restore: call `setTheme` with the stored id only when one is stored
        and it is not the empty string. Either way storage ends as it was, since a restore
        writes back the value it read. */
    method Restore()
      modifies this, storage
      ensures storage.entries == old(storage.entries)
      ensures ThemeKey in old(storage.entries) && old(storage.entries)[ThemeKey].Text? &&
              old(storage.entries)[ThemeKey].text != "" ==>
        currentTheme == FindOrDefault(Themes, old(storage.entries)[ThemeKey].text)
      ensures !(ThemeKey in old(storage.entries) && old(storage.entries)[ThemeKey].Text? &&
                old(storage.entries)[ThemeKey].text != "") ==>
        currentTheme == old(currentTheme)
    {
      var stored := storage.GetItem(ThemeKey);
      if stored.Some? && stored.value.Text? && stored.value.text != "" {
        SetTheme(stored.value.text);
      }
    }
  }
}
