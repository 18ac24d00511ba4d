/** The pure decisions buried in the launcher's main window: the library
    search filter, the choice between game cards and the empty-library
    label, the language and theme mappings of the settings dialog, and the
    single-instance rule for that dialog. Widgets are outside the model;
    dialog liveness (`winfo_exists`) is the `live` field of a dialog. */
module Launcher {
  import opened Optional
  import opened Strings
  import opened Seqs
  import opened GameLibrary
  import opened GameOrder
  import opened Settings

  /** The search condition: the query occurs in the name, ignoring case. */
  function Matches(query: string): Game -> bool {
    (g: Game) => Contains(Lower(g.name), Lower(query))
  }

  /** The lower-cased query occurs in the lower-cased name at some position. */
  ghost predicate NameHasQuery(g: Game, query: string) {
    exists k: nat :: OccursAt(Lower(g.name), Lower(query), k)
  }

  /** The filter step of `load_game_list`. */
  function FilterGames(games: seq<Game>, query: string): (r: seq<Game>)
    ensures |r| <= |games|
    ensures forall i :: 0 <= i < |r| ==> r[i] in games && Contains(Lower(r[i].name), Lower(query))
    ensures forall i :: 0 <= i < |games| && Contains(Lower(games[i].name), Lower(query)) ==> games[i] in r
  {
    if query != "" then Filter(games, Matches(query)) else games
  }

  /** The filter keeps exactly the games whose lower-cased name contains the
      lower-cased query at some position; an empty query keeps everything. */
  lemma FilterGamesMembers(games: seq<Game>, query: string)
    ensures query == "" ==> FilterGames(games, query) == games
    ensures forall i :: 0 <= i < |FilterGames(games, query)| ==> FilterGames(games, query)[i] in games
    ensures forall i :: 0 <= i < |FilterGames(games, query)| ==> NameHasQuery(FilterGames(games, query)[i], query)
    ensures forall i :: 0 <= i < |games| && NameHasQuery(games[i], query) ==> games[i] in FilterGames(games, query)
  {
    var r := FilterGames(games, query);
    forall i | 0 <= i < |r|
      ensures r[i] in games && NameHasQuery(r[i], query)
    {
      if query == "" {
        ContainsEmpty(Lower(r[i].name));
      } else {
        assert Matches(query)(r[i]);
      }
      ContainsIffOccurs(Lower(r[i].name), Lower(query));
    }
    forall i | 0 <= i < |games| && NameHasQuery(games[i], query)
      ensures games[i] in r
    {
      if query != "" {
        ContainsIffOccurs(Lower(games[i].name), Lower(query));
        assert Matches(query)(games[i]);
      }
    }
  }

  /** The filter keeps the library order: filtering two halves separately
      and concatenating is filtering the whole. */
  lemma FilterGamesOrder(a: seq<Game>, b: seq<Game>, query: string)
    ensures FilterGames(a + b, query) == FilterGames(a, query) + FilterGames(b, query)
  {
    FilterConcat(a, b, Matches(query));
  }

  /** The search ignores the case of the query: a query and its lower-cased
      form select the same games. */
  lemma FilterIgnoresQueryCase(games: seq<Game>, query: string)
    ensures FilterGames(games, Lower(query)) == FilterGames(games, query)
  {
    if query != "" {
      LowerIdempotent(query);
      forall i | 0 <= i < |games|
        ensures Matches(Lower(query))(games[i]) == Matches(query)(games[i])
      {
      }
      FilterCongruent(games, Matches(Lower(query)), Matches(query));
    }
  }

  /** The `if query:` guard changes nothing: the empty query matches every
      name anyway. */
  lemma EmptyQueryMatchesAll(games: seq<Game>)
    ensures Filter(games, Matches("")) == games
  {
    forall i | 0 <= i < |games|
      ensures Matches("")(games[i])
    {
      ContainsEmpty(Lower(games[i].name));
    }
    FilterKeepsAll(games, Matches(""));
  }

  /** What the library area shows: the translated empty label, or one card
      per game, in order. */
  datatype ListView = EmptyLabel(text: string) | Cards(games: seq<Game>)

  /** `load_game_list(query)`. */
  function LoadGameList(library: seq<Game>, settings: SettingsMap, query: string): (r: ListView)
    ensures var shown := FilterGames(GetGames(library), query);
      && (r.EmptyLabel? <==> shown == [])
      && (r.EmptyLabel? ==> r.text == GetText(settings, "no_games"))
      && (r.Cards? ==> r.games == shown)
  {
    var shown := FilterGames(GetGames(library), query);
    if shown == [] then EmptyLabel(GetText(settings, "no_games")) else Cards(shown)
  }

  /** Without a query the list shows the whole sorted library, and the
      empty label appears exactly when the library is empty. */
  lemma EmptyQueryShowsLibrary(library: seq<Game>, settings: SettingsMap)
    ensures library == [] ==> LoadGameList(library, settings, "") == EmptyLabel(GetText(settings, "no_games"))
    ensures library != [] ==> LoadGameList(library, settings, "") == Cards(GetGames(library))
  {
    var sorted := GetGames(library);
    if library != [] {
      assert library[0] in multiset(sorted);
    }
  }

  /** `change_language(choice)`: "English" selects "en", anything else "es". */
  function LanguageCode(choice: string): (r: string)
    ensures r == "en" <==> choice == "English"
    ensures r == "en" || r == "es"
  {
    if choice == "English" then "en" else "es"
  }

  /** The language menu's initial entry: "English" exactly when the stored
      language is "en"; an unset language shows "Spanish". */
  function LanguageChoice(s: SettingsMap): (r: string)
    ensures r == "English" <==> "language" in s && s["language"] == "en"
    ensures r == "English" || r == "Spanish"
  {
    if GetSetting(s, "language", None) == Some("en") then "English" else "Spanish"
  }

  /** An unset or unknown language shows "Spanish" although the interface
      is in English: a settings file holding only a theme is one such input. */
  lemma LanguageChoiceMismatch()
    ensures var s := map["theme" := "blue"];
      LanguageChoice(s) == "Spanish" && ActiveTable(s) == English
    ensures var s := map["language" := "fr"];
      LanguageChoice(s) == "Spanish" && ActiveTable(s) == English
  {
    ActiveTableCases(map["theme" := "blue"]);
    ActiveTableCases(map["language" := "fr"]);
  }

  /** The menu entry that names the language the interface is actually in. */
  function LanguageChoiceIntended(s: SettingsMap): (r: string)
    ensures r == "Spanish" <==> ActiveTable(s) == Spanish
    ensures r == "English" <==> ActiveTable(s) == English
  {
    ActiveTableCases(s);
    if Language(s) == "es" then "Spanish" else "English"
  }

  /** Wherever the stored language is "en" or "es" the two definitions
      agree. */
  lemma LanguageChoiceAgreesOnKnownCodes(s: SettingsMap)
    requires "language" in s && s["language"] in {"en", "es"}
    ensures LanguageChoice(s) == LanguageChoiceIntended(s)
  {
  }

  function ChangeLanguage(s: SettingsMap, choice: string): (r: SettingsMap)
    ensures "language" in r && r["language"] in {"en", "es"}
    ensures r["language"] == "en" <==> choice == "English"
    ensures forall k :: k != "language" ==> (k in r <==> k in s)
    ensures forall k :: k != "language" && k in s ==> r[k] == s[k]
  {
    SetSetting(s, "language", LanguageCode(choice))
  }

  /** Choosing a language in the menu and reopening the dialog shows the same
      choice, and the interface then speaks that language. */
  lemma LanguageRoundTrip(s: SettingsMap, choice: string, key: string)
    requires choice == "English" || choice == "Spanish"
    requires key in English
    ensures LanguageChoice(ChangeLanguage(s, choice)) == choice
    ensures LanguageChoiceIntended(ChangeLanguage(s, choice)) == choice
    ensures choice == "English" ==> GetText(ChangeLanguage(s, choice), key) == English[key]
    ensures choice == "Spanish" ==> GetText(ChangeLanguage(s, choice), key) == Spanish[key]
  {
    GetTextTranslatesKnownKeys(s, key);
  }

  const ThemeMap: map<string, string> := map["dark-blue" := "Dark Blue", "blue" := "Blue", "green" := "Green"]

  /** `rev_theme_map`, the menu entry back to its theme code. */
  const ReverseThemeMap: map<string, string> := map["Dark Blue" := "dark-blue", "Blue" := "blue", "Green" := "green"]

  /** The two theme maps are inverse bijections between the three codes and
      the three menu entries. */
  lemma ThemeMapsInverse()
    ensures ReverseThemeMap.Keys == ThemeMap.Values && ThemeMap.Keys == ReverseThemeMap.Values
    ensures forall code :: code in ThemeMap ==> ReverseThemeMap[ThemeMap[code]] == code
    ensures forall entry :: entry in ReverseThemeMap ==> ThemeMap[ReverseThemeMap[entry]] == entry
  {
    assert ThemeMap.Values == {"Dark Blue", "Blue", "Green"} by {
      assert ThemeMap["dark-blue"] == "Dark Blue" && ThemeMap["blue"] == "Blue" && ThemeMap["green"] == "Green";
    }
    assert ReverseThemeMap.Values == {"dark-blue", "blue", "green"} by {
      assert ReverseThemeMap["Dark Blue"] == "dark-blue" && ReverseThemeMap["Blue"] == "blue" && ReverseThemeMap["Green"] == "green";
    }
  }

  /** The theme menu's initial entry: the stored theme ("dark-blue" when
      unset) through `theme_map`, "Dark Blue" for an unknown code. */
  function ThemeChoice(s: SettingsMap): (r: string)
    ensures r in ReverseThemeMap
    ensures "theme" !in s ==> r == "Dark Blue"
    ensures "theme" in s && s["theme"] in ThemeMap ==> r == ThemeMap[s["theme"]]
    ensures "theme" in s && s["theme"] !in ThemeMap ==> r == "Dark Blue"
  {
    var code := GetSetting(s, "theme", Some("dark-blue")).value;
    if code in ThemeMap then ThemeMap[code] else "Dark Blue"
  }

  /** The theme menu's command: store the code of the chosen entry. The menu
      only offers the three entries of the map. */
  function ChangeTheme(s: SettingsMap, choice: string): (r: SettingsMap)
    requires choice in ReverseThemeMap
    ensures "theme" in r && r["theme"] in ThemeMap
    ensures r["theme"] == ReverseThemeMap[choice]
    ensures forall k :: k != "theme" ==> (k in r <==> k in s)
    ensures forall k :: k != "theme" && k in s ==> r[k] == s[k]
  {
    SetSetting(s, "theme", ReverseThemeMap[choice])
  }

  /** Choosing a theme and reopening the dialog shows the same entry. */
  lemma ThemeRoundTrip(s: SettingsMap, choice: string)
    requires choice in ReverseThemeMap
    ensures ThemeChoice(ChangeTheme(s, choice)) == choice
  {
    ThemeMapsInverse();
  }

  datatype Dialog = Dialog(id: nat, live: bool)

  datatype OpenResult = OpenResult(window: Option<Dialog>, created: bool)

  /** `open_settings`: create a dialog (numbered `freshId`) only when there is
      none or the previous one is gone; otherwise focus the existing one. */
  function OpenSettings(current: Option<Dialog>, freshId: nat): (r: OpenResult)
    ensures r.created <==> current.None? || !current.value.live
    ensures r.window.Some? && r.window.value.live
    ensures !r.created ==> r.window == current
    ensures r.created ==> r.window == Some(Dialog(freshId, true))
  {
    if current.None? || !current.value.live then OpenResult(Some(Dialog(freshId, true)), true)
    else OpenResult(current, false)
  }

  /** Pressing the settings button again while the dialog is open never
      creates a second dialog. */
  lemma OpenSettingsSingleInstance(current: Option<Dialog>, firstId: nat, secondId: nat)
    ensures var first := OpenSettings(current, firstId);
      var second := OpenSettings(first.window, secondId);
      !second.created && second.window == first.window
  {
  }
}
