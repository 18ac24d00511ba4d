# GameLauncher core, modelled in Dafny

A desktop game launcher with a serverless friends/chat feature. Beneath the
Tk widgets, pygame and win32 code sit small sequential components, and this
project models them as pure state transitions over records, sequences and
maps:

- **ChatClient** (`chat_client.py`): topic naming (`launcher/chat/<name>`,
  `launcher/chat/global`), the four wire envelopes (`message`, `presence`,
  `new_request`, `request_accepted`), and publishing gated on `connected`.
  Publishing appends to an outbox. Inbound frames are parsed by an oracle.
- **FriendsPanel** (`friends_ui.py`): the friends and requests lists, the
  "Requests (n)" button text, accept bookkeeping, chat windows (at most one
  live window per friend) with their message logs, and the row labelling of
  the friends list.
- **GameLibrary / GameOrder** (`game_manager.py`): records keyed by path;
  add with existence and duplicate checks, name derivation, removal by
  index, first-match updates, loading with defaults, and the stable
  favourites-first sort of `get_games`.
- **Settings** (`settings_manager.py`): the key/value settings and the
  translation lookup with its two fallbacks.
- **Music** (`music_manager.py`): the playlist cursor.
- **Launcher** (`app.py`): the library search filter, cards versus
  empty label, the settings dialog's language and theme mappings, and its
  single-instance rule.
- **Controller** (`controller_manager.py`): event-to-command classification
  and the device-list refresh.
- Helpers: **Optional** (Python's `None`), **Strings** (ASCII lower-casing,
  substring search, `str(n)`, Python string order), **Seqs** (comprehension
  filter, `list.remove`), **PathNames** (`basename`, `splitext`, `join`).

Oracles stand in for the environment. These are `os.path.exists`, icon
extraction, JSON decoding of files and frames, pygame's track loading, and
widget liveness (`winfo_exists`, the `live` field of windows and dialogs).

Path functions follow Windows `ntpath`, the platform the launcher targets:
both `/` and `\` separate components, a leading drive letter (`C:`) is split
off before the basename is taken, and `join` inserts `\` only after a
directory that is neither empty, nor a bare drive, nor ending in a separator. Python's `%`
with a positive divisor agrees with Dafny's, so `next_track` needs no
adjustment for a negative cursor.

## Model

| member | source | states |
|---|---|---|
| ChatClient.PersonalTopicInjective | chat_client.py:19 | different names have different personal topics `launcher/chat/<name>` |
| ChatClient.PersonalTopicIsGlobalIff | chat_client.py:53-56 | a personal topic equals the global topic exactly when the name is "global" |
| ChatClient.PersonalTopic | chat_client.py:53-56 | a personal topic is `launcher/chat/` followed by exactly the name |
| ChatClient.Wire | chat_client.py:53-79 | each kind has exactly its own keys: a message is `{type:"message", from, content}`, a presence `{type:"presence", username, status, game}`, a request `{type:"new_request", from}`, an acceptance `{type:"request_accepted", from}`, with the sender's name (or null) in `from`/`username` |
| ChatClient.TypeDecidesKind | chat_client.py:53-79 | two wire objects carry the same `type` tag exactly when they come from the same kind of envelope |
| ChatClient.WireDeterminesEnvelope | chat_client.py:55 | every wire object has a `type` tag from the four in use, and no two envelopes share a wire object |
| ChatClient.Send | chat_client.py:49-51 | one publication is appended when connected; otherwise the client is unchanged |
| ChatClient.SendMessage | chat_client.py:53-56 | when connected, publishes `{type:"message", from:username, content}` to the target's personal topic; otherwise nothing |
| ChatClient.SendStatusUpdate | chat_client.py:61-70 | when connected, publishes a presence with status "Online" and the given game to the global topic |
| ChatClient.UpdateStatus | chat_client.py:58-59 | behaves exactly like `send_status_update` |
| ChatClient.SendFriendRequest | chat_client.py:72-74 | when connected, publishes `{type:"new_request", from:username}` to the target's personal topic |
| ChatClient.AcceptFriendRequest | chat_client.py:76-82 | when connected, publishes the acceptance to the requester's topic and then a presence with no game to the global topic, in that order |
| ChatClient.Connect | chat_client.py:21-33 | the name is recorded even on failure; success sets `connected`, keeps the subscriptions and ends the outbox with one presence with no game; failure returns false and changes nothing else |
| ChatClient.OnConnect | chat_client.py:35-39 | subscribes to the personal topic and then the global topic |
| ChatClient.Deliveries | chat_client.py:41-47 | only parsed frames reach the callback, nothing reaches an unset callback, and parse failures are dropped |
| ChatClient.DeliveriesConcat | chat_client.py:41-47 | deliveries keep arrival order |
| ChatClient.DeliveriesCount | chat_client.py:41-47 | every frame that parses is delivered to a set callback |
| ChatClient.RunKeepsPresenceOnline | chat_client.py:61-70 | over any run of client operations, every presence is "Online" and goes to the global topic |
| ChatClient.DisconnectedPublishesNothing | chat_client.py:21-33 | until a connection succeeds, no operation publishes anything |
| FriendsPanel.AddMessage | friends_ui.py:33-37 | the log grows by exactly `sender + ": " + content + "\n"` at its end |
| FriendsPanel.NewPanel | friends_ui.py:40-66 | a new panel keeps the client it is given, has empty lists, no windows, and a button text matching zero requests |
| FriendsPanel.UpdateData | friends_ui.py:68-72 | both lists are replaced wholesale and the button shows `Requests (len(requests))` |
| FriendsPanel.RowLabelling | friends_ui.py:74-93 | the dot is green iff status is "Online"; the text is the username, with a "Playing" line iff the game is truthy; the row opens that friend's chat |
| FriendsPanel.RowOf | friends_ui.py:82-92 | the dot is green iff the status is "Online", gray otherwise; the text starts with the username and is longer exactly when the game is truthy; the row opens that friend's chat |
| FriendsPanel.Rows | friends_ui.py:78-93 | one row per friend, in list order |
| FriendsPanel.AddFriend | friends_ui.py:95-99 | an empty entry sends nothing; otherwise one friend request to the entered name |
| FriendsPanel.ShowRequests | friends_ui.py:101-113 | no dialog without requests; otherwise one row per request, in order |
| FriendsPanel.Accept | friends_ui.py:115-128 | calls the client's accept first; adds `{requester, "Online", None}` only when absent; when present, removes the first occurrence from the requests, keeping the others in order, and updates the button text |
| FriendsPanel.AcceptAddsOnlineRow | friends_ui.py:78-121 | after accepting someone new, the refreshed list keeps every earlier row and ends with a green row, without a game line, that opens the new friend's chat |
| FriendsPanel.AcceptEachEmpties | friends_ui.py:115-126 | accepting every pending request, in any order, empties the requests and leaves the button at "Requests (0)" |
| FriendsPanel.AcceptingAllShownClearsRequests | friends_ui.py:101-126 | after accepting every request the dialog lists, the dialog has nothing left to show |
| FriendsPanel.AcceptNoDuplicateFriend | friends_ui.py:118-121 | accepting keeps friend names unique, and accepting twice adds nothing more |
| FriendsPanel.OpenChat | friends_ui.py:130-134 | afterwards a live window exists; a live window is only focused, never replaced; otherwise a fresh empty window replaces the stored one |
| FriendsPanel.OpenChatIdempotent | friends_ui.py:130-134 | opening a chat twice is opening it once |
| FriendsPanel.ReceiveMsg | friends_ui.py:136-139 | afterwards a live window for the sender exists and its log ends with the message line; an already live window keeps its earlier log and its addressee, a new one is addressed to the sender; other windows are unchanged |
| FriendsPanel.SendFromChat | friends_ui.py:26-31 | an empty entry is a no-op; otherwise the message goes to the window's friend and is logged as "Me" in that window, which keeps its friend and liveness; every other window is unchanged |
| FriendsPanel.SessionKeepsWindowsAddressed | friends_ui.py:130-139 | over any session, every chat window stays stored under the name of the friend it talks to |
| FriendsPanel.ReplyReachesSender | friends_ui.py:26-31 | a reply typed into the window an incoming message opened is sent to that message's sender |
| FriendsPanel.SessionKeepsLabel | friends_ui.py:68-72 | over any session of panel operations, the button text matches the number of pending requests |
| GameLibrary.WithDefaultsFields | game_manager.py:21-25 | loading keeps present fields and fills favorite False, play_time 0, description "", last_played None |
| GameLibrary.LoadGames | game_manager.py:15-29 | a missing or invalid file yields an empty library; otherwise one record per stored record |
| GameLibrary.SaveLoadRoundTrip | game_manager.py:15-33 | saving the library and loading it back gives the same library |
| GameLibrary.GameName | game_manager.py:39 | the name is the basename with its `splitext` extension cut off, and contains no separator |
| GameLibrary.GameNameOfFile | game_manager.py:39 | an executable `<dir>\<stem>.<ext>` is named `<stem>` when `dir` is empty, a bare drive or ends in a separator; for instance `C:\G\game.exe` and `C:game.exe` are named "game" |
| GameLibrary.AddGame | game_manager.py:35-67 | fails with "File does not exist." or "Game already added." and no change; otherwise appends one record for the path, named by its basename without the extension, not favourite, no play time, empty description, with icon `<icons_dir>\<name>.png` iff extraction succeeded |
| GameLibrary.AddGameNamesByStem | game_manager.py:39-58 | adding `<dir>\<stem>.<ext>` creates a record named `<stem>` whose extracted icon is `<icons_dir>\<stem>.png` |
| GameLibrary.IconPath | game_manager.py:46-47 | the icon path starts with the icons directory and ends with `<name>.png` |
| GameLibrary.IconPathBasename | game_manager.py:46-47 | the icon file of a game is `<name>.png` inside the icons directory, whatever that directory is |
| GameLibrary.AddGameKeepsPathsUnique | game_manager.py:41-44 | paths stay unique, and adding the same path again fails as a duplicate |
| GameLibrary.RemoveGame | game_manager.py:73-78 | succeeds iff the index is in range, and then removes exactly that record |
| GameLibrary.FirstWithPath | game_manager.py:81-82 | finds the first record with the path, if any |
| GameLibrary.ToggleFavorite | game_manager.py:80-86 | flips only the first matching record's flag; false and no change without a match |
| GameLibrary.ToggleFavoriteTwice | game_manager.py:80-86 | toggling twice restores the library |
| GameLibrary.UpdatePlayTime | game_manager.py:88-96 | the first match gains the duration and records the time of play; nothing else changes |
| GameLibrary.UpdateMetadata | game_manager.py:98-107 | the first match takes the new name and description, and the new icon only when it is truthy; nothing else changes |
| GameLibrary.UpdatesKeepPaths | game_manager.py:80-107 | no update changes the length of the library or any path |
| GameOrder.SortGamesCorrect | game_manager.py:69-71 | the sort is a sorted permutation that keeps the stored order of records with equal keys |
| GameOrder.SortedGroupsEqualKeys | game_manager.py:69-71 | in a sorted library the records sharing a key stand together, with nothing of another key between them |
| GameOrder.GetGames | game_manager.py:69-71 | a permutation with favourites first, each group in lower-cased name order, stable among equal keys |
| Settings.LoadSettings | settings_manager.py:76-83 | a missing or invalid file yields `{"language": "en"}` |
| Settings.GetSetting | settings_manager.py:89-90 | the stored value, or the default when the key is absent |
| Settings.SetSetting | settings_manager.py:92-94 | the key is stored with the new value, every other setting keeps its value, and no other key appears |
| Settings.GetAfterSet | settings_manager.py:89-94 | after `set_setting(k, v)`, `get_setting(k)` is v and every other key reads as before |
| Settings.TablesShareKeys | settings_manager.py:9-74 | the English and Spanish tables define the same keys |
| Settings.ActiveTableCases | settings_manager.py:96-98 | the Spanish table is used iff the language is "es"; an unset or unknown language falls back to English |
| Settings.GetText | settings_manager.py:96-98 | a table key reads as its English or its Spanish text; any other key is returned as itself |
| Settings.GetTextCases | settings_manager.py:96-98 | unset language reads English; an unknown language reads as the defaults do; a missing key returns the key itself |
| Settings.GetTextTranslatesKnownKeys | settings_manager.py:96-98 | a table key always translates into one of the two languages, and setting the language selects that table |
| Settings.DefaultsSpeakEnglish | settings_manager.py:76-98 | without a usable settings file the text comes from the English table |
| Music.LoadPlaylist | music_manager.py:15-22 | a missing or unreadable file yields an empty playlist |
| Music.NewPlayer | music_manager.py:6-10 | a new player starts at index 0, not playing |
| Music.AddMusic | music_manager.py:28-33 | appends and returns true iff the path is new and the file exists |
| Music.AddMusicKeepsNoDuplicates | music_manager.py:28-33 | the playlist never gains a duplicate |
| Music.Play | music_manager.py:35-48 | no change on an empty playlist; the index is taken even out of range; playback starts only in range and when the track loads |
| Music.Pause | music_manager.py:50-56 | playing becomes paused and paused becomes playing; the playlist and the cursor stay |
| Music.PauseTwice | music_manager.py:50-56 | pause toggles playing, and two pauses restore the player |
| Music.NextTrack | music_manager.py:58-62 | on a non-empty playlist the cursor advances with wrap-around and is in range afterwards; playback starts when the track loads, and a failed load leaves the playing flag as it was |
| Music.SkipTracksPosition | music_manager.py:58-62 | after k skips the cursor is k further on modulo the length, so a full round returns to the start |
| Music.GetPlaylist | music_manager.py:64-65 | the basenames of the tracks, same length, same order |
| Music.GetPlaylistAfterAdd | music_manager.py:28-65 | a successful add shows up as the new track's file name at the end of the shown playlist; a refused add changes nothing shown |
| Launcher.FilterGames | app.py:271-272 | every shown game is a library game whose lower-cased name contains the lower-cased query, and every such game is shown |
| Launcher.FilterGamesMembers | app.py:268-272 | an empty query keeps all games; otherwise exactly the games whose lower-cased name contains the lower-cased query |
| Launcher.FilterGamesOrder | app.py:271-272 | the filter keeps library order |
| Launcher.FilterIgnoresQueryCase | app.py:271-272 | a query and its lower-cased form select the same games |
| Launcher.EmptyQueryMatchesAll | app.py:271-272 | the empty query matches every name, so the `if query:` guard changes nothing |
| Launcher.LoadGameList | app.py:262-289 | the empty label (translated "no_games") iff nothing passes the filter; otherwise one card per filtered game, in order |
| Launcher.EmptyQueryShowsLibrary | app.py:268-289 | with no query the cards are exactly `get_games()`, and the empty label appears iff the library is empty |
| Launcher.LanguageCode | app.py:181-183 | "English" maps to "en" and every other choice to "es" |
| Launcher.LanguageChoice | app.py:162 | the menu shows "English" iff the stored language is "en", else "Spanish" |
| Launcher.LanguageChoiceMismatch | app.py:162 | an unset or unknown language shows "Spanish" while the interface is in English |
| Launcher.LanguageChoiceIntended | settings_manager.py:96-98 | the menu entry names the table `get_text` actually uses |
| Launcher.LanguageChoiceAgreesOnKnownCodes | app.py:162 | for stored "en" or "es", the source's and the corrected menu entry agree |
| Launcher.ChangeLanguage | app.py:181-183 | stores "en" iff the choice is "English" and "es" otherwise, leaving every other setting as it was |
| Launcher.LanguageRoundTrip | app.py:162-185 | choosing a language and reopening the dialog shows that choice, and the interface then uses that table |
| Launcher.ThemeMapsInverse | app.py:170-171 | `rev_theme_map` is the inverse of `theme_map` over the three themes |
| Launcher.ThemeChoice | app.py:169-178 | a known stored theme shows its own `theme_map` entry; an unset or unknown one shows "Dark Blue"; every shown entry is in the menu |
| Launcher.ChangeTheme | app.py:176-188 | the stored theme is `rev_theme_map[choice]`, one of the three codes, and every other setting is unchanged |
| Launcher.ThemeRoundTrip | app.py:169-188 | choosing a theme and reopening the dialog shows that entry |
| Launcher.OpenSettings | app.py:342-346 | a new dialog only when none exists or the old one is gone; otherwise the existing one is kept |
| Launcher.OpenSettingsSingleInstance | app.py:342-346 | a second press while the dialog is open never creates another |
| Controller.ClassifyCases | controller_manager.py:25-51 | button 0 is SELECT, button 1 BACK; axis 1 beyond ±0.5 is DOWN/UP, axis 0 RIGHT/LEFT; everything else yields nothing, each iff its event |
| Controller.CommandNamesDistinct | controller_manager.py:28-51 | the callback strings of different commands differ |
| Controller.Classify | controller_manager.py:25-51 | other event types yield nothing; buttons yield only SELECT or BACK; stick motion yields only a direction, and only outside the dead zone [-0.5, 0.5] |
| Controller.Commands | controller_manager.py:25-51 | each event yields at most one command, and a command is reported iff some event of the batch classifies to it |
| Controller.CommandsOne | controller_manager.py:25-51 | a single event reports exactly its classified command, or nothing |
| Controller.CommandsConcat | controller_manager.py:25-51 | commands come out in event order |
| Controller.RefreshJoysticks | controller_manager.py:20-23 | the list has one entry per device; a changed count rebuilds it as indices 0..count-1, an unchanged one keeps it |
| Controller.RefreshStable | controller_manager.py:20-23 | a second refresh with the same count changes nothing |
| Controller.PollOnce | controller_manager.py:18-51 | one pass keeps the device list when the count is unchanged and rebuilds it as indices 0..count-1 otherwise, and reports at most one command per event, a command exactly when some event classifies to it |
| Controller.PollTwice | controller_manager.py:18-51 | two passes with the device count unchanged keep the first pass's device list and report both batches' commands in order, as one pass over all the events would |
| PathNames.Basename | game_manager.py:39 | `basename`: the separator-free suffix after the last separator and after any drive letter |
| PathNames.Stem | game_manager.py:39 | `splitext(name)[0]` is a prefix of the name that the extension completes |
| PathNames.SplitExtParts | game_manager.py:39 | `splitext`: stem plus extension is the name; the extension is empty or one dot and dot-free text; it is non-empty exactly when the last dot has a non-dot character before it, so leading dots stay in the stem |
| PathNames.StemOfDotted | game_manager.py:39 | `splitext(stem + "." + ext)` is `(stem, "." + ext)` for a dot-free `ext` and a stem that is not all dots |
| PathNames.Join | game_manager.py:47 | `join(dir, file)` is the directory, one inserted `\` unless the directory is empty, a bare drive such as `C:`, or already ends in a separator, then the file |
| PathNames.JoinBasename | game_manager.py:46-47 | the icon path's basename is `<name>.png` |

## Left out

- MQTT transport: broker connection, `loop_start`, the receive thread, and `disconnect`. `disconnect` stops the loop but never resets `connected`; the model has no transport to stop.
- JSON encoding and decoding. Envelopes are a datatype, and their wire objects are maps. Decoding of files and frames is an oracle `Option`.
- An exception raised by the inbound callback is swallowed like a parse failure. The callback itself is not modelled, because no code that reacts to inbound messages is part of this model.
- The inbound message router (dispatch on `type`, presence filtering by friendship, storing incoming requests). Neither chat_client.py nor friends_ui.py dispatches inbound messages; `update_data` receives finished lists.
- The list objects that `update_data` receives are stored, not copied, so `accept`'s append and remove also change the caller's lists. The model treats lists as values and does not model this sharing.
- All widget construction, layout, focus, colours and fonts beyond the status dot, and the destroying of the requests dialog. Window liveness is a field the window system sets.
- File persistence (`save_games`, `save_settings`, `save_playlist`), icon extraction (win32), metadata fetching (HTTP), the tray icon, sound effects, the theme editor, sound generation and packaging.
- Process launching and timing in `app.py` (`launch_game`, `_run_game_process`), the `hours:.1f` display, and `add_game_dialog`'s file picker.
- The controller's polling loop, `time.sleep` debounce and pygame initialisation.
- Strings.Lower: ASCII-only; Python's `str.lower` also folds non-ASCII letters.
- PathNames.Basename: UNC prefixes (`\\server\share`) are not split off as `ntpath` does; drive letters are.
- PathNames.Join: a file name that itself starts with a drive (`D:x.png`) makes `ntpath.join` drop the directory; the model always appends it.
- GameLibrary.UpdatePlayTime: play time and timestamps are exact reals, with no float rounding.
- GameLibrary.LoadGames: stored records are assumed to have the right field types; malformed JSON structure (not a list of objects) would raise in the source.
- Settings.LoadSettings: settings values are strings; JSON numbers, lists and nulls in settings.json are not represented.
- Music.Play: a failing `pygame.mixer.music.load` is the `loads` flag; the printed error is not modelled.

## Findings

| source | as written | input that shows it | evidently intended | confidence | as-written member | corrected member |
|---|---|---|---|---|---|---|
| app.py:162 | the menu reads `get_setting("language")` with no default and shows "Spanish" for anything but "en" | settings.json holding `{"theme": "blue"}` (or `"language": "fr"`): the interface is English but the menu shows "Spanish" | the menu names the language `get_text` uses, "English" unless the language is "es" | medium, not executed | Launcher.LanguageChoiceMismatch | Launcher.LanguageChoiceIntended |
