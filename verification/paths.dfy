/** The parts of Python's `os.path` the launcher relies on, as they behave on
    Windows (the platform the launcher targets): both '/' and '\' separate
    path components, a leading drive letter (`C:`) is split off before the
    tail is taken, and `join` inserts '\' after a directory that has a
    non-empty part past its drive and does not end in a separator. */
module PathNames {

  predicate IsSep(c: char) {
    c == '/' || c == '\\'
  }

  predicate NoSep(s: string) {
    forall i :: 0 <= i < |s| ==> !IsSep(s[i])
  }

  /** The index just past the last separator of `p`, or 0 when there is none. */
  function TailStart(p: string): (k: nat)
    ensures k <= |p|
    ensures k > 0 ==> IsSep(p[k - 1])
    ensures NoSep(p[k..])
    decreases |p|
  {
    if p == [] then 0
    else if IsSep(p[|p| - 1]) then |p|
    else
      var k := TailStart(p[..|p| - 1]);
      assert p[k..] == p[..|p| - 1][k..] + [p[|p| - 1]];
      k
  }

  /** The length of the drive `ntpath.splitroot` finds at the start of `p`:
      two for a drive letter (`C:`), none otherwise (UNC shares are not
      modelled). */
  function DriveLen(p: string): (k: nat)
    ensures k <= |p|
  {
    if |p| >= 2 && p[1] == ':' && !IsSep(p[0]) then 2 else 0
  }

  predicate NoDrive(s: string) {
    DriveLen(s) == 0
  }

  /** A name appended to `dir` with nothing in between starts the path's
      tail: `dir` is empty, a bare drive, or ends in a separator. */
  predicate OpensTail(dir: string) {
    |dir| == DriveLen(dir) || IsSep(dir[|dir| - 1])
  }

  /** `os.path.basename(p)`: everything after the last separator and after
      the drive. */
  function Basename(p: string): (r: string)
    ensures NoSep(r)
    ensures |r| <= |p| && p[|p| - |r|..] == r
    ensures DriveLen(p) <= |p| - |r|
    ensures |r| < |p| ==> IsSep(p[|p| - |r| - 1]) || |p| - |r| == DriveLen(p)
  {
    var k := TailStart(p);
    if k < DriveLen(p) then
      assert forall i :: 0 <= i < |p| - 2 ==> p[2..][i] == p[k..][i + 2 - k];
      p[2..]
    else p[k..]
  }

  predicate NoDot(s: string) {
    forall i :: 0 <= i < |s| ==> s[i] != '.'
  }

  /** Index of the last '.' in `s`, if any. */
  function LastDot(s: string): (d: int)
    ensures -1 <= d < |s|
    ensures d >= 0 ==> s[d] == '.'
    ensures forall i :: d < i < |s| ==> s[i] != '.'
    decreases |s|
  {
    if s == [] then -1
    else if s[|s| - 1] == '.' then |s| - 1
    else LastDot(s[..|s| - 1])
  }

  /** Some character of `s` is not a dot. */
  predicate HasNonDot(s: string) {
    exists i :: 0 <= i < |s| && s[i] != '.'
  }

  /** Index of the extension dot of a file name `name` (no separators), as
      `os.path.splitext` finds it: the last '.', provided some character
      before it is not a dot (leading dots belong to the stem, so ".bashrc"
      has no extension); -1 when the name has no extension. */
  function ExtStart(name: string): (d: int)
    ensures -1 <= d < |name|
    ensures d >= 0 <==> LastDot(name) >= 0 && HasNonDot(name[..LastDot(name)])
    ensures d >= 0 ==> d == LastDot(name)
  {
    var d := LastDot(name);
    if d >= 0 && HasNonDot(name[..d]) then d else -1
  }

  /** `os.path.splitext(name)[0]`: the name with its extension cut off. */
  function Stem(name: string): (r: string)
    ensures r <= name
    ensures r + Extension(name) == name
  {
    var d := ExtStart(name);
    if d >= 0 then
      assert name == name[..d] + name[d..];
      name[..d]
    else name
  }

  /** `os.path.splitext(name)[1]`. */
  function Extension(name: string): string {
    var d := ExtStart(name);
    if d >= 0 then name[d..] else ""
  }

  /** splitext splits a name without losing characters; the extension is
      empty or one dot followed by dot-free text; it is non-empty exactly
      when the name has a dot with some non-dot character before it, and a
      non-empty extension leaves a stem that is not all dots. */
  lemma SplitExtParts(name: string)
    ensures Stem(name) + Extension(name) == name
    ensures Extension(name) == "" || (Extension(name)[0] == '.' && NoDot(Extension(name)[1..]))
    ensures Extension(name) != "" <==> LastDot(name) >= 0 && HasNonDot(name[..LastDot(name)])
    ensures Extension(name) != "" ==> HasNonDot(Stem(name))
    ensures NoDot(name) ==> Stem(name) == name && Extension(name) == ""
  {
    var d := LastDot(name);
    if d >= 0 {
      assert name[d..][1..] == name[d + 1..];
    }
  }

  /** A dot with no dot after it is the last dot. */
  lemma LastDotAt(s: string, k: nat)
    requires k < |s| && s[k] == '.'
    requires forall i :: k < i < |s| ==> s[i] != '.'
    ensures LastDot(s) == k
  {
  }

  /** In `x + "." + y` with a dot-free `y`, no dot follows the middle one. */
  lemma NoDotAfterMiddle(x: string, y: string)
    requires NoDot(y)
    ensures var s := x + "." + y; s[|x|] == '.' && forall i :: |x| < i < |s| ==> s[i] != '.'
  {
    var s := x + "." + y;
    forall i | |x| < i < |s|
      ensures s[i] != '.'
    {
      assert s[i] == y[i - |x| - 1];
    }
  }

  /** The last dot of `x + "." + y`, for a dot-free `y`, is the one between. */
  lemma LastDotAppend(x: string, y: string)
    requires NoDot(y)
    ensures LastDot(x + "." + y) == |x|
  {
    NoDotAfterMiddle(x, y);
    LastDotAt(x + "." + y, |x|);
  }

  /** A stem that is not all dots, a dot and a dot-free extension split back
      into exactly those parts: `splitext("game.exe") == ("game", ".exe")`. */
  lemma StemOfDotted(stem: string, ext: string)
    requires NoDot(ext) && HasNonDot(stem)
    ensures Stem(stem + "." + ext) == stem
    ensures Extension(stem + "." + ext) == "." + ext
  {
    var name := stem + "." + ext;
    LastDotAppend(stem, ext);
    assert name[..|stem|] == stem;
    assert name[|stem|..] == "." + ext;
  }

  /** `os.path.join(dir, file)` for a `file` with no separator and no drive. */
  function Join(dir: string, file: string): (r: string)
    ensures dir <= r && |file| <= |r| && r[|r| - |file|..] == file
    ensures |r| == |dir| + |file| <==> OpensTail(dir)
    ensures |r| != |dir| + |file| ==> |r| == |dir| + 1 + |file| && r[|dir|] == '\\'
  {
    if OpensTail(dir) then dir + file else dir + "\\" + file
  }

  /** After a separator (or at the very start), a separator-free tail is
      exactly what `TailStart` finds. */
  lemma {:induction false} TailStartAfterSep(x: string, y: string)
    requires x == [] || IsSep(x[|x| - 1])
    requires NoSep(y)
    ensures TailStart(x + y) == |x|
    decreases |y|
  {
    if y == [] {
      assert x + y == x;
    } else {
      var p := x + y;
      assert p[..|p| - 1] == x + y[..|y| - 1];
      TailStartAfterSep(x, y[..|y| - 1]);
    }
  }

  /** A file placed right after a directory that opens the tail is the
      path's basename. */
  lemma BasenameAfterDir(dir: string, file: string)
    requires OpensTail(dir)
    requires NoSep(file)
    requires dir != [] || NoDrive(file)
    ensures Basename(dir + file) == file
  {
    var p := dir + file;
    if dir != [] && !IsSep(dir[|dir| - 1]) {
      assert NoSep(p) by {
        forall i | 0 <= i < |p|
          ensures !IsSep(p[i])
        {
          if i >= |dir| {
            assert p[i] == file[i - |dir|];
          }
        }
      }
      TailStartAfterSep([], p);
      assert [] + p == p;
      assert p[2..] == file;
    } else {
      TailStartAfterSep(dir, file);
      if |dir| == 1 {
        assert p[0] == dir[0];
      }
    }
  }

  /** A stem and an extension without separators make a name without one. */
  lemma NoSepDotted(stem: string, ext: string)
    requires NoSep(stem) && NoSep(ext)
    ensures NoSep(stem + "." + ext)
  {
    var name := stem + "." + ext;
    forall i | 0 <= i < |name|
      ensures !IsSep(name[i])
    {
      if i > |stem| {
        assert name[i] == ext[i - |stem| - 1];
      }
    }
  }

  /** The joined path names `file` again as its basename. */
  lemma JoinBasename(dir: string, file: string)
    requires NoSep(file)
    requires dir != [] || NoDrive(file)
    ensures Basename(Join(dir, file)) == file
  {
    if OpensTail(dir) {
      BasenameAfterDir(dir, file);
    } else {
      BasenameAfterDir(dir + "\\", file);
      assert dir + "\\" + file == (dir + "\\") + file;
    }
  }
}
