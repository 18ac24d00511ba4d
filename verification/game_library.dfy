/** The game library: a list of records keyed by executable path, with
    add/remove/update operations. File existence and icon extraction are
    oracles passed in; writing games.json is an effect outside the model. */
module GameLibrary {
  import opened Optional
  import opened PathNames

  datatype Game = Game(
    name: string,
    path: string,
    icon: Option<string>,
    favorite: bool,
    playTime: real,
    description: string,
    lastPlayed: Option<real>)

  /** A record as read back from games.json: fields introduced by later
      versions of the launcher may be missing. */
  datatype StoredGame = StoredGame(
    name: string,
    path: string,
    icon: Option<string>,
    favorite: Option<bool>,
    playTime: Option<real>,
    description: Option<string>,
    lastPlayed: Option<Option<real>>)

  /** The `setdefault` calls of `load_games`. */
  function WithDefaults(s: StoredGame): Game {
    Game(s.name, s.path, s.icon, s.favorite.GetOr(false), s.playTime.GetOr(0.0),
         s.description.GetOr(""), s.lastPlayed.GetOr(None))
  }

  /** Filling defaults keeps every field that was present and supplies
      `False`, `0`, `""` and `None` for the missing ones. */
  lemma WithDefaultsFields(s: StoredGame)
    ensures WithDefaults(s).name == s.name && WithDefaults(s).path == s.path && WithDefaults(s).icon == s.icon
    ensures s.favorite.Some? ==> WithDefaults(s).favorite == s.favorite.value
    ensures s.favorite.None? ==> !WithDefaults(s).favorite
    ensures s.playTime.Some? ==> WithDefaults(s).playTime == s.playTime.value
    ensures s.playTime.None? ==> WithDefaults(s).playTime == 0.0
    ensures s.description.Some? ==> WithDefaults(s).description == s.description.value
    ensures s.description.None? ==> WithDefaults(s).description == ""
    ensures s.lastPlayed.Some? ==> WithDefaults(s).lastPlayed == s.lastPlayed.value
    ensures s.lastPlayed.None? ==> WithDefaults(s).lastPlayed.None?
  {
  }

  /** `load_games`. `fileExists` answers `os.path.exists`; `parsed` is the
      decoded file, `None` when it is not valid JSON. */
  function LoadGames(fileExists: bool, parsed: Option<seq<StoredGame>>): (r: seq<Game>)
    ensures !fileExists || parsed.None? ==> r == []
    ensures fileExists && parsed.Some? ==> |r| == |parsed.value|
    ensures fileExists && parsed.Some? ==> forall i :: 0 <= i < |r| ==> r[i] == WithDefaults(parsed.value[i])
  {
    if fileExists && parsed.Some? then
      var stored := parsed.value;
      seq(|stored|, i requires 0 <= i < |stored| => WithDefaults(stored[i]))
    else []
  }

  /** What `save_games` writes for one record: every field. */
  function Stored(g: Game): StoredGame {
    StoredGame(g.name, g.path, g.icon, Some(g.favorite), Some(g.playTime), Some(g.description), Some(g.lastPlayed))
  }

  function StoredAll(games: seq<Game>): seq<StoredGame> {
    seq(|games|, i requires 0 <= i < |games| => Stored(games[i]))
  }

  /** Saving the library and loading it back gives the same library. */
  lemma SaveLoadRoundTrip(games: seq<Game>)
    ensures LoadGames(true, Some(StoredAll(games))) == games
  {
  }

  const FileMissingMessage: string := "File does not exist."
  const DuplicateMessage: string := "Game already added."
  const AddedMessage: string := "Game added successfully."

  predicate HasPath(games: seq<Game>, path: string) {
    exists i :: 0 <= i < |games| && games[i].path == path
  }

  /** No two records share a path. */
  predicate UniquePaths(games: seq<Game>) {
    forall i, j :: 0 <= i < j < |games| ==> games[i].path != games[j].path
  }

  /** The display name derived from an executable path:
      `os.path.splitext(os.path.basename(path))[0]`. */
  function GameName(path: string): (r: string)
    ensures NoSep(r)
    ensures r <= Basename(path)
    ensures r + Extension(Basename(path)) == Basename(path)
  {
    var base := Basename(path);
    var r := Stem(base);
    assert forall i :: 0 <= i < |r| ==> r[i] == base[i];
    r
  }

  /** An executable `<dir>\<stem>.<ext>` is named `<stem>`, for a `dir` that
      is empty, a bare drive or ends in a separator. */
  lemma GameNameOfFile(dir: string, stem: string, ext: string)
    requires OpensTail(dir)
    requires NoSep(stem) && NoSep(ext) && NoDot(ext) && HasNonDot(stem)
    requires dir != [] || NoDrive(stem)
    ensures GameName(dir + stem + "." + ext) == stem
  {
    var file := stem + "." + ext;
    assert dir + stem + "." + ext == dir + file;
    assert |stem| >= 2 ==> file[..2] == stem[..2];
    NoSepDotted(stem, ext);
    BasenameAfterDir(dir, file);
    StemOfDotted(stem, ext);
  }

  /** Where the extracted icon of a game called `name` is written. */
  function IconPath(iconsDir: string, name: string): (r: string)
    ensures iconsDir <= r
    ensures |name| + 4 <= |r| && r[|r| - |name| - 4..] == name + ".png"
  {
    Join(iconsDir, name + ".png")
  }

  datatype AddResult = AddResult(games: seq<Game>, success: bool, message: string)

  /** `add_game`. `fileExists` answers `os.path.exists(path)`;
      `iconExtracted` says whether `extract_icon` produced the icon file. */
  function AddGame(games: seq<Game>, path: string, fileExists: bool, iconsDir: string, iconExtracted: bool): (r: AddResult)
    ensures r.success <==> fileExists && !HasPath(games, path)
    ensures !fileExists ==> r == AddResult(games, false, FileMissingMessage)
    ensures fileExists && HasPath(games, path) ==> r == AddResult(games, false, DuplicateMessage)
    ensures r.success ==>
      && r.message == AddedMessage
      && |r.games| == |games| + 1
      && games <= r.games
      && var g := r.games[|games|];
      && g.path == path
      && g.name == GameName(path)
      && !g.favorite && g.playTime == 0.0 && g.description == "" && g.lastPlayed.None?
      && (iconExtracted ==> g.icon == Some(IconPath(iconsDir, g.name)))
      && (!iconExtracted ==> g.icon.None?)
  {
    if !fileExists then AddResult(games, false, FileMissingMessage)
    else
      var name := GameName(path);
      if HasPath(games, path) then AddResult(games, false, DuplicateMessage)
      else
        var icon := if iconExtracted then Some(IconPath(iconsDir, name)) else None;
        AddResult(games + [Game(name, path, icon, false, 0.0, "", None)], true, AddedMessage)
  }

  /** Adding `<dir>\<stem>.<ext>` names the record `<stem>` and, when the icon
      is extracted, stores it as `<icons_dir>\<stem>.png`. */
  lemma AddGameNamesByStem(games: seq<Game>, dir: string, stem: string, ext: string, iconsDir: string)
    requires OpensTail(dir)
    requires NoSep(stem) && NoSep(ext) && NoDot(ext) && HasNonDot(stem)
    requires dir != [] || NoDrive(stem)
    requires !HasPath(games, dir + stem + "." + ext)
    ensures var r := AddGame(games, dir + stem + "." + ext, true, iconsDir, true);
      && r.success
      && r.games[|games|].name == stem
      && r.games[|games|].icon == Some(IconPath(iconsDir, stem))
  {
    GameNameOfFile(dir, stem, ext);
  }

  /** The icon file of a game is named `<name>.png`, whatever the icons
      directory. */
  lemma IconPathBasename(iconsDir: string, name: string)
    requires NoSep(name)
    requires iconsDir != [] || NoDrive(name)
    ensures Basename(IconPath(iconsDir, name)) == name + ".png"
  {
    var file := name + ".png";
    forall i | 0 <= i < |file|
      ensures !IsSep(file[i])
    {
      if i >= |name| {
        assert file[i] == ".png"[i - |name|];
      }
    }
    assert |name| >= 2 ==> file[..2] == name[..2];
    JoinBasename(iconsDir, file);
  }

  /** `add_game` keeps paths unique, and adding the same path again fails
      with the duplicate message. */
  lemma AddGameKeepsPathsUnique(games: seq<Game>, path: string, fileExists: bool, iconsDir: string, iconExtracted: bool,
                                fileExistsAgain: bool, iconExtractedAgain: bool)
    requires UniquePaths(games)
    ensures UniquePaths(AddGame(games, path, fileExists, iconsDir, iconExtracted).games)
    ensures var once := AddGame(games, path, fileExists, iconsDir, iconExtracted);
      once.success && fileExistsAgain ==>
        AddGame(once.games, path, fileExistsAgain, iconsDir, iconExtractedAgain) == AddResult(once.games, false, DuplicateMessage)
  {
    var once := AddGame(games, path, fileExists, iconsDir, iconExtracted);
    if once.success {
      var added := once.games[|games|];
      assert once.games == games + [added];
      AppendFreshPath(games, added);
      assert HasPath(once.games, path);
    }
  }

  /** Appending a record whose path is new keeps paths unique. */
  lemma AppendFreshPath(games: seq<Game>, g: Game)
    requires UniquePaths(games) && !HasPath(games, g.path)
    ensures UniquePaths(games + [g])
  {
    forall i, j | 0 <= i < j < |games| + 1
      ensures (games + [g])[i].path != (games + [g])[j].path
    {
      if j == |games| {
        assert games[i].path != g.path;
      }
    }
  }

  datatype RemoveResult = RemoveResult(games: seq<Game>, removed: bool)

  /** `remove_game(index)`: succeeds exactly for an index in range and then
      removes exactly that record. */
  function RemoveGame(games: seq<Game>, index: int): (r: RemoveResult)
    ensures r.removed <==> 0 <= index < |games|
    ensures !r.removed ==> r.games == games
    ensures r.removed ==> |r.games| == |games| - 1
    ensures r.removed ==> forall j :: 0 <= j < index ==> r.games[j] == games[j]
    ensures r.removed ==> forall j :: index <= j < |r.games| ==> r.games[j] == games[j + 1]
    ensures r.removed ==> multiset(r.games) == multiset(games) - multiset{games[index]}
  {
    if 0 <= index < |games| then
      assert games == games[..index] + [games[index]] + games[index + 1..];
      RemoveResult(games[..index] + games[index + 1..], true)
    else RemoveResult(games, false)
  }

  /** The position of the first record with `path`, as the source's
      `for game in self.games` loops find it. */
  function FirstWithPath(games: seq<Game>, path: string): (r: Option<nat>)
    ensures r.Some? <==> HasPath(games, path)
    ensures r.Some? ==> r.value < |games| && games[r.value].path == path
    ensures r.Some? ==> forall j :: 0 <= j < r.value ==> games[j].path != path
  {
    if games == [] then None
    else if games[0].path == path then Some(0)
    else
      match FirstWithPath(games[1..], path)
      case Some(i) =>
        assert games[i + 1] == games[1..][i];
        Some(i + 1)
      case None =>
        assert forall j :: 1 <= j < |games| ==> games[j] == games[1..][j - 1];
        None
  }

  datatype UpdateResult = UpdateResult(games: seq<Game>, found: bool)

  /** `toggle_favorite(path)`: flips the flag of the first record with that
      path and touches nothing else; `False` and no change when none has it. */
  function ToggleFavorite(games: seq<Game>, path: string): (r: UpdateResult)
    ensures r.found <==> HasPath(games, path)
    ensures !r.found ==> r.games == games
    ensures r.found ==> var i := FirstWithPath(games, path).value;
      && |r.games| == |games|
      && r.games[i].favorite == !games[i].favorite
      && r.games[i] == games[i].(favorite := r.games[i].favorite)
      && forall j :: 0 <= j < |games| && j != i ==> r.games[j] == games[j]
  {
    match FirstWithPath(games, path)
    case Some(i) => UpdateResult(games[i := games[i].(favorite := !games[i].favorite)], true)
    case None => UpdateResult(games, false)
  }

  /** Toggling a favourite twice restores the library. */
  lemma ToggleFavoriteTwice(games: seq<Game>, path: string)
    ensures ToggleFavorite(ToggleFavorite(games, path).games, path).games == games
  {
    var once := ToggleFavorite(games, path);
    if once.found {
      var i := FirstWithPath(games, path).value;
      assert forall j :: 0 <= j < |games| ==> once.games[j].path == games[j].path;
      assert FirstWithPath(once.games, path) == Some(i);
    }
  }

  /** `update_play_time(path, duration)`: the first record with the path
      gains `duration` seconds and records `now` as its last play. */
  function UpdatePlayTime(games: seq<Game>, path: string, duration: real, now: real): (r: UpdateResult)
    ensures r.found <==> HasPath(games, path)
    ensures !r.found ==> r.games == games
    ensures r.found ==> var i := FirstWithPath(games, path).value;
      && |r.games| == |games|
      && r.games[i].playTime == games[i].playTime + duration
      && r.games[i].lastPlayed == Some(now)
      && r.games[i] == games[i].(playTime := r.games[i].playTime, lastPlayed := Some(now))
      && forall j :: 0 <= j < |games| && j != i ==> r.games[j] == games[j]
  {
    match FirstWithPath(games, path)
    case Some(i) =>
      UpdateResult(games[i := games[i].(playTime := games[i].playTime + duration, lastPlayed := Some(now))], true)
    case None => UpdateResult(games, false)
  }

  /** `update_metadata(path, name, description, icon_path)`: the first record
      with the path takes the new name and description, and the new icon only
      when `icon_path` is truthy. */
  function UpdateMetadata(games: seq<Game>, path: string, name: string, description: string, iconPath: Option<string>): (r: UpdateResult)
    ensures r.found <==> HasPath(games, path)
    ensures !r.found ==> r.games == games
    ensures r.found ==> var i := FirstWithPath(games, path).value;
      && |r.games| == |games|
      && r.games[i].name == name && r.games[i].description == description
      && r.games[i].icon == (if Truthy(iconPath) then iconPath else games[i].icon)
      && r.games[i].path == path
      && r.games[i].favorite == games[i].favorite && r.games[i].playTime == games[i].playTime
      && r.games[i].lastPlayed == games[i].lastPlayed
      && forall j :: 0 <= j < |games| && j != i ==> r.games[j] == games[j]
  {
    match FirstWithPath(games, path)
    case Some(i) =>
      var g := games[i].(name := name, description := description);
      UpdateResult(games[i := if Truthy(iconPath) then g.(icon := iconPath) else g], true)
    case None => UpdateResult(games, false)
  }

  /** None of the record updates changes any path, so they keep paths unique
      and keep finding the same record. */
  lemma UpdatesKeepPaths(games: seq<Game>, path: string, duration: real, now: real,
                         name: string, description: string, iconPath: Option<string>)
    ensures var r := ToggleFavorite(games, path).games;
      |r| == |games| && forall j :: 0 <= j < |r| ==> r[j].path == games[j].path
    ensures var r := UpdatePlayTime(games, path, duration, now).games;
      |r| == |games| && forall j :: 0 <= j < |r| ==> r[j].path == games[j].path
    ensures var r := UpdateMetadata(games, path, name, description, iconPath).games;
      |r| == |games| && forall j :: 0 <= j < |r| ==> r[j].path == games[j].path
  {
  }
}
