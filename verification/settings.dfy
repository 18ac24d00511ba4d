/** The settings store (a string-to-string map persisted as settings.json)
    and the two-level translation lookup with its fallbacks. Reading and
    writing the file are outside the model: the decoded file is a parameter. */
module Settings {
  import opened Optional

  type SettingsMap = map<string, string>

  /** What `load_settings` yields when there is no usable file. */
  const Defaults: SettingsMap := map["language" := "en"]

  /** `load_settings`. `fileExists` answers `os.path.exists`; `parsed` is the
      decoded file, `None` when it is not valid JSON. */
  function LoadSettings(fileExists: bool, parsed: Option<SettingsMap>): (r: SettingsMap)
    ensures fileExists && parsed.Some? ==> r == parsed.value
    ensures !fileExists || parsed.None? ==> r == Defaults
  {
    if fileExists && parsed.Some? then parsed.value else Defaults
  }

  /** `get_setting(key, default)`. */
  function GetSetting(s: SettingsMap, key: string, default: Option<string>): (r: Option<string>)
    ensures key in s ==> r == Some(s[key])
    ensures key !in s ==> r == default
  {
    if key in s then Some(s[key]) else default
  }

  /** `set_setting(key, value)`. */
  function SetSetting(s: SettingsMap, key: string, value: string): (r: SettingsMap)
    ensures r.Keys == s.Keys + {key}
    ensures r[key] == value
    ensures forall k :: k in s && k != key ==> r[k] == s[k]
  {
    s[key := value]
  }

  /** Reading a setting back after writing it gives the written value, and
      every other setting reads as before. */
  lemma GetAfterSet(s: SettingsMap, key: string, value: string, other: string, default: Option<string>)
    ensures GetSetting(SetSetting(s, key, value), key, default) == Some(value)
    ensures other != key ==> GetSetting(SetSetting(s, key, value), other, default) == GetSetting(s, other, default)
  {
  }

  const English: map<string, string> := map[
    "window_title" := "Game Launcher",
    "my_games" := "My Games",
    "add_game" := "+ Add Game",
    "library" := "Library",
    "play" := "Play",
    "settings" := "Settings",
    "language" := "Language",
    "no_games" := "No games added yet.\nClick '+ Add Game' to start.",
    "select_game" := "Select Game Executable",
    "game_added" := "Game added successfully.",
    "file_not_exist" := "File does not exist.",
    "game_exists" := "Game already added.",
    "error_launch" := "Error launching game",
    "game_not_found" := "Game file not found!",
    "english" := "English",
    "spanish" := "Spanish",
    "search_placeholder" := "Search games...",
    "favorites" := "Favorites",
    "time_played" := "Time Played",
    "hours" := "h",
    "minutes" := "m",
    "edit" := "Edit",
    "save" := "Save",
    "cancel" := "Cancel",
    "description" := "Description",
    "fetch_metadata" := "Fetch Data",
    "theme" := "Theme",
    "blue" := "Blue",
    "green" := "Green",
    "dark_blue" := "Dark Blue"]

  const Spanish: map<string, string> := map[
    "window_title" := "Lanzador de Juegos",
    "my_games" := "Mis Juegos",
    "add_game" := "+ Añadir Juego",
    "library" := "Biblioteca",
    "play" := "Jugar",
    "settings" := "Ajustes",
    "language" := "Idioma",
    "no_games" := "No hay juegos añadidos.\nHaz clic en '+ Añadir Juego' para empezar.",
    "select_game" := "Seleccionar Ejecutable del Juego",
    "game_added" := "Juego añadido con éxito.",
    "file_not_exist" := "El archivo no existe.",
    "game_exists" := "El juego ya está añadido.",
    "error_launch" := "Error al lanzar el juego",
    "game_not_found" := "¡Archivo del juego no encontrado!",
    "english" := "Inglés",
    "spanish" := "Español",
    "search_placeholder" := "Buscar juegos...",
    "favorites" := "Favoritos",
    "time_played" := "Tiempo Jugado",
    "hours" := "h",
    "minutes" := "m",
    "edit" := "Editar",
    "save" := "Guardar",
    "cancel" := "Cancelar",
    "description" := "Descripción",
    "fetch_metadata" := "Obtener Datos",
    "theme" := "Tema",
    "blue" := "Azul",
    "green" := "Verde",
    "dark_blue" := "Azul Oscuro"]

  const Translations: map<string, map<string, string>> := map["en" := English, "es" := Spanish]

  /** Both tables translate the same keys, so switching language never
      exposes a raw key that the other language translates. */
  lemma TablesShareKeys()
    ensures English.Keys == Spanish.Keys
  {
  }

  /** The language in force: the "language" setting, "en" when unset. */
  function Language(s: SettingsMap): string {
    GetSetting(s, "language", Some("en")).value
  }

  /** The table `get_text` reads: the current language's, the English table
      standing in for an unknown language. */
  function ActiveTable(s: SettingsMap): map<string, string> {
    if Language(s) in Translations then Translations[Language(s)] else English
  }

  /** The interface is in Spanish exactly when the language setting is "es",
      and in English otherwise (unset, "en", or any unknown code). */
  lemma ActiveTableCases(s: SettingsMap)
    ensures ActiveTable(s) == Spanish <==> Language(s) == "es"
    ensures ActiveTable(s) == English <==> Language(s) != "es"
  {
    TablesDiffer();
    TranslationsEntries();
    var lang := Language(s);
    if lang == "es" {
      assert ActiveTable(s) == Spanish;
    } else if lang == "en" {
      assert ActiveTable(s) == English;
    } else {
      assert lang !in Translations;
    }
  }

  /** The two tables are different maps. */
  lemma TablesDiffer()
    ensures English != Spanish
  {
    assert English["window_title"] != Spanish["window_title"];
  }

  /** `translations` holds exactly the two tables, under "en" and "es". */
  lemma TranslationsEntries()
    ensures Translations.Keys == {"en", "es"}
    ensures Translations["en"] == English && Translations["es"] == Spanish
  {
  }

  /** `get_text(key)`: look the key up in the active table, the key itself
      standing in for a missing translation. */
  function GetText(s: SettingsMap, key: string): (r: string)
    ensures key in English ==> r == English[key] || r == Spanish[key]
    ensures key !in English ==> r == key
  {
    var table := ActiveTable(s);
    if key in table then table[key] else key
  }

  /** The translation lookup with its two fallbacks, case by case. */
  lemma GetTextCases(s: SettingsMap, key: string)
    ensures "language" !in s && key in English ==> GetText(s, key) == English[key]
    ensures GetSetting(s, "language", None) == Some("es") && key in Spanish ==> GetText(s, key) == Spanish[key]
    ensures Language(s) !in {"en", "es"} ==> GetText(s, key) == GetText(Defaults, key)
    ensures key !in English ==> GetText(s, key) == key
  {
  }

  /** Whatever the language setting, a key of the tables is always translated
      into one of the two languages. */
  lemma GetTextTranslatesKnownKeys(s: SettingsMap, key: string)
    requires key in English
    ensures GetText(s, key) == English[key] || GetText(s, key) == Spanish[key]
    ensures GetText(SetSetting(s, "language", "es"), key) == Spanish[key]
    ensures GetText(SetSetting(s, "language", "en"), key) == English[key]
  {
    TablesShareKeys();
  }

  /** With no usable settings file the launcher speaks English. */
  lemma DefaultsSpeakEnglish(fileExists: bool, parsed: Option<SettingsMap>, key: string)
    requires !fileExists || parsed.None?
    ensures GetText(LoadSettings(fileExists, parsed), key) == (if key in English then English[key] else key)
  {
  }
}
