/** The background-music playlist cursor. Audio playback is outside the
    model: `loads` says whether pygame loaded and started the track, and
    file existence is an oracle. */
module Music {
  import opened Optional
  import opened Seqs
  import PathNames

  datatype Player = Player(playlist: seq<string>, currentIndex: int, isPlaying: bool)

  /** `load_playlist`: the decoded file, or empty when it is missing or
      unreadable. */
  function LoadPlaylist(fileExists: bool, parsed: Option<seq<string>>): (r: seq<string>)
    ensures fileExists && parsed.Some? ==> r == parsed.value
    ensures !fileExists || parsed.None? ==> r == []
  {
    if fileExists && parsed.Some? then parsed.value else []
  }

  /** A player as constructed: at the first track, not playing. */
  function NewPlayer(playlist: seq<string>): (r: Player)
    ensures r.playlist == playlist && r.currentIndex == 0 && !r.isPlaying
  {
    Player(playlist, 0, false)
  }

  datatype AddResult = AddResult(player: Player, added: bool)

  /** `add_music(path)`: appends exactly when the path is new and the file
      exists. */
  function AddMusic(m: Player, path: string, fileExists: bool): (r: AddResult)
    ensures r.added <==> path !in m.playlist && fileExists
    ensures r.added ==> r.player == m.(playlist := m.playlist + [path])
    ensures !r.added ==> r.player == m
  {
    if path !in m.playlist && fileExists then AddResult(m.(playlist := m.playlist + [path]), true)
    else AddResult(m, false)
  }

  /** Adding never introduces a duplicate track. */
  lemma AddMusicKeepsNoDuplicates(m: Player, path: string, fileExists: bool)
    requires NoDuplicates(m.playlist)
    ensures NoDuplicates(AddMusic(m, path, fileExists).player.playlist)
  {
    if path !in m.playlist && fileExists {
      AppendFreshNoDuplicates(m.playlist, path);
    }
  }

  predicate InRange(m: Player) {
    0 <= m.currentIndex < |m.playlist|
  }

  /** `play(index)`: nothing on an empty playlist; otherwise the index is
      taken as given, even out of range, and playback starts only when the
      cursor is in range and the track loads. */
  function Play(m: Player, index: Option<int>, loads: bool): (r: Player)
    ensures m.playlist == [] ==> r == m
    ensures r.playlist == m.playlist
    ensures m.playlist != [] && index.Some? ==> r.currentIndex == index.value
    ensures index.None? ==> r.currentIndex == m.currentIndex
    ensures r.isPlaying != m.isPlaying ==> InRange(r) && loads && r.isPlaying
    ensures m.playlist != [] && InRange(r) && loads ==> r.isPlaying
  {
    if m.playlist == [] then m
    else
      var cursor := if index.Some? then m.(currentIndex := index.value) else m;
      if InRange(cursor) && loads then cursor.(isPlaying := true) else cursor
  }

  /** `pause`: toggles between paused and playing. */
  function Pause(m: Player): (r: Player)
    ensures r.isPlaying == !m.isPlaying
    ensures r.playlist == m.playlist && r.currentIndex == m.currentIndex
  {
    m.(isPlaying := !m.isPlaying)
  }

  /** Pausing twice restores the player. */
  lemma PauseTwice(m: Player)
    ensures Pause(Pause(m)) == m
  {
  }

  /** `next_track`: on a non-empty playlist, advance with wrap-around (Python's
      `%` with a positive divisor never yields a negative index) and play. */
  function NextTrack(m: Player, loads: bool): (r: Player)
    ensures m.playlist == [] ==> r == m
    ensures m.playlist != [] ==> InRange(r) && r.currentIndex == (m.currentIndex + 1) % |m.playlist|
    ensures m.playlist != [] && loads ==> r.isPlaying
    ensures !loads ==> r.isPlaying == m.isPlaying
    ensures r.playlist == m.playlist
  {
    if m.playlist == [] then m
    else Play(m.(currentIndex := (m.currentIndex + 1) % |m.playlist|), None, loads)
  }

  /** `next_track` called `k` times. */
  function SkipTracks(m: Player, k: nat, loads: bool): Player
    decreases k
  {
    if k == 0 then m else SkipTracks(NextTrack(m, loads), k - 1, loads)
  }

  /** After `k` skips the cursor sits `k` tracks further on, modulo the
      playlist length; in particular a full round of skips comes back to an
      in-range starting track. */
  lemma {:induction false} SkipTracksPosition(m: Player, k: nat, loads: bool)
    requires m.playlist != [] && k > 0
    ensures SkipTracks(m, k, loads).currentIndex == (m.currentIndex + k) % |m.playlist|
    ensures InRange(m) && k == |m.playlist| ==> SkipTracks(m, k, loads).currentIndex == m.currentIndex
    decreases k
  {
    var n := |m.playlist|;
    var next := NextTrack(m, loads);
    assert SkipTracks(m, k, loads) == SkipTracks(next, k - 1, loads);
    if k > 1 {
      SkipTracksPosition(next, k - 1, loads);
      ModShift(m.currentIndex, k, n);
    }
    if InRange(m) && k == n {
      ModUnique(m.currentIndex + n, 1, m.currentIndex, n);
    }
  }

  /** `((a + 1) % n + (k - 1)) % n == (a + k) % n` for positive `n`. */
  lemma ModShift(a: int, k: int, n: int)
    requires n > 0
    ensures ((a + 1) % n + (k - 1)) % n == (a + k) % n
  {
    var x := (a + 1) % n + (k - 1);
    var q := (a + 1) / n;
    assert a + k == x + q * n;
    ModAddMultiple(x, q, n);
  }

  lemma ModAddMultiple(x: int, q: int, n: int)
    requires n > 0
    ensures (x + q * n) % n == x % n
  {
    var d, r := x / n, x % n;
    assert x == d * n + r;
    assert x + q * n == (d + q) * n + r;
    ModUnique(x + q * n, d + q, r, n);
  }

  /** Euclidean division has one quotient and remainder. */
  lemma ModUnique(x: int, d: int, r: int, n: int)
    requires n > 0 && 0 <= r < n && x == d * n + r
    ensures x % n == r
  {
    var d', r' := x / n, x % n;
    assert (d - d') * n == r' - r;
    if d > d' {
      MulAtLeast(d - d', n);
    } else if d < d' {
      MulAtLeast(d' - d, n);
    }
  }

  lemma MulAtLeast(a: int, n: int)
    requires a >= 1 && n > 0
    ensures a * n >= n
  {
  }

  /** `get_playlist`: the file names of the tracks, in playlist order. */
  function GetPlaylist(m: Player): (r: seq<string>)
    ensures |r| == |m.playlist|
    ensures forall i :: 0 <= i < |r| ==> PathNames.NoSep(r[i])
    ensures forall i :: 0 <= i < |r| ==> r[i] == PathNames.Basename(m.playlist[i])
  {
    seq(|m.playlist|, i requires 0 <= i < |m.playlist| => PathNames.Basename(m.playlist[i]))
  }

  /** A successful `add_music` shows up as the new track's file name at the
      end of `get_playlist`; a refused one changes nothing shown. */
  lemma GetPlaylistAfterAdd(m: Player, path: string, fileExists: bool)
    ensures var r := AddMusic(m, path, fileExists);
      && (r.added ==> GetPlaylist(r.player) == GetPlaylist(m) + [PathNames.Basename(path)])
      && (!r.added ==> GetPlaylist(r.player) == GetPlaylist(m))
  {
    if path !in m.playlist && fileExists {
      GetPlaylistAppend(m, path);
    }
  }

  lemma GetPlaylistAppend(m: Player, path: string)
    ensures GetPlaylist(m.(playlist := m.playlist + [path])) == GetPlaylist(m) + [PathNames.Basename(path)]
  {
    var m' := m.(playlist := m.playlist + [path]);
    var before, after := GetPlaylist(m), GetPlaylist(m');
    var n := |before|;
    assert after[n] == PathNames.Basename(path);
    assert after[..n] == before by {
      assert forall i :: 0 <= i < n ==> m'.playlist[i] == m.playlist[i];
    }
    assert after == after[..n] + [after[n]];
  }
}
