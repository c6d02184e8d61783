/** Conversion between native file paths and the paths of file URLs
    (setPath and getPath). Both are the identity unless the operating
    system is Windows. */
module Paths {

  /** runtime.GOOS on Windows. */
  const Windows := "windows"

  predicate IsAsciiLetter(c: char) {
    'A' <= c <= 'Z' || 'a' <= c <= 'z'
  }

  /** The regular expression `^[A-Za-z]:.*$`. In Go's syntax `.` does not
      match a newline and `$` anchors at the end of the text, so everything
      after the colon must be free of newlines. */
  predicate IsDriveLetterPath(s: string) {
    |s| >= 2 && IsAsciiLetter(s[0]) && s[1] == ':' && '\n' !in s[2..]
  }

  /** strings.Replace(s, from, to, -1) for one-character strings. */
  function Replace(s: string, from: char, to: char): (r: string)
    ensures |r| == |s|
    ensures forall i :: 0 <= i < |s| ==> r[i] == if s[i] == from then to else s[i]
  {
    if s == [] then [] else [if s[0] == from then to else s[0]] + Replace(s[1..], from, to)
  }

  /** strings.TrimLeft(s, cut) for a one-character cut set: r is what is left
      after every leading `cut`. */
  function TrimLeft(s: string, cut: char): (r: string)
    ensures |r| <= |s| && r == s[|s| - |r|..]
    ensures forall i :: 0 <= i < |s| - |r| ==> s[i] == cut
    ensures r == [] || r[0] != cut
  {
    if s != [] && s[0] == cut then TrimLeft(s[1..], cut) else s
  }

  /** After replacing every `from`, none is left. */
  lemma ReplacedAway(s: string, from: char, to: char)
    requires from != to
    ensures from !in Replace(s, from, to)
  {
    var r := Replace(s, from, to);
    forall j | 0 <= j < |r| ensures r[j] != from {
    }
  }

  /** Trimming only removes characters, so it adds none. */
  lemma {:induction false} TrimLeftKeepsAbsent(s: string, cut: char, c: char)
    requires c !in s
    ensures c !in TrimLeft(s, cut)
    decreases |s|
  {
    if s != [] && s[0] == cut {
      assert s == [s[0]] + s[1..];
      TrimLeftKeepsAbsent(s[1..], cut, c);
    }
  }

  /** One leading `cut` in front of a string that does not start with it is
      all that is trimmed. */
  lemma TrimLeftOne(d: string, cut: char)
    requires d == [] || d[0] != cut
    ensures TrimLeft([cut] + d, cut) == d
  {
    assert ([cut] + d)[1..] == d;
  }

  /** No backslash survives the separator swap, nor the trimming after it. */
  lemma SlashedHasNoBackslash(path: string)
    ensures '\\' !in TrimLeft(Replace(path, '\\', '/'), '/')
  {
    ReplacedAway(path, '\\', '/');
    TrimLeftKeepsAbsent(Replace(path, '\\', '/'), '/', '\\');
  }

  /** setPath: a native path as the path of a file URL. On Windows the
      separators become slashes, leading slashes go, and a drive-letter path
      gets exactly one leading slash back. */
  function SetPath(goos: string, path: string): (r: string)
    ensures goos != Windows ==> r == path
    ensures goos == Windows ==> '\\' !in r
    ensures goos == Windows && r != [] && r[0] == '/' ==> IsDriveLetterPath(r[1..])
  {
    if goos == Windows then
      var p := TrimLeft(Replace(path, '\\', '/'), '/');
      SlashedHasNoBackslash(path);
      if IsDriveLetterPath(p) then
        var r := "/" + p;
        assert r[1..] == p && r[0] == '/';
        r
      else p
    else path
  }

  /** getPath: the path of a file URL as a native path. On Windows leading
      slashes go, a path that is not a drive-letter path becomes a UNC path
      (two leading separators), and slashes become backslashes. */
  function GetPath(goos: string, path: string): (r: string)
    ensures goos != Windows ==> r == path
    ensures goos == Windows ==> '/' !in r
  {
    if goos == Windows then
      var p := TrimLeft(path, '/');
      var q := if !IsDriveLetterPath(p) then "//" + p else p;
      ReplacedAway(q, '/', '\\');
      Replace(q, '/', '\\')
    else path
  }

  /** Swapping one separator for the other never changes whether a path is
      a drive-letter path: neither is a letter, a colon or a newline. */
  lemma DriveLetterUnderReplace(s: string, from: char, to: char)
    requires (from == '\\' || from == '/') && (to == '\\' || to == '/')
    ensures IsDriveLetterPath(Replace(s, from, to)) == IsDriveLetterPath(s)
  {
    var r := Replace(s, from, to);
    if |s| >= 2 {
      SeparatorSwap(s[0], from, to);
      SeparatorSwap(s[1], from, to);
      assert ('\n' in r[2..]) == ('\n' in s[2..]) by {
        forall i | 2 <= i < |s| ensures (r[i] == '\n') == (s[i] == '\n') {
          SeparatorSwap(s[i], from, to);
        }
        if '\n' in r[2..] {
          var k :| 0 <= k < |r[2..]| && r[2..][k] == '\n';
          assert s[2..][k] == '\n';
        }
        if '\n' in s[2..] {
          var k :| 0 <= k < |s[2..]| && s[2..][k] == '\n';
          assert r[2..][k] == '\n';
        }
      }
    }
  }

  /** A character after a separator swap is a letter, a colon or a newline
      exactly when it was before. */
  lemma SeparatorSwap(c: char, from: char, to: char)
    requires (from == '\\' || from == '/') && (to == '\\' || to == '/')
    ensures var d := if c == from then to else c;
            IsAsciiLetter(d) == IsAsciiLetter(c) && (d == ':') == (c == ':') && (d == '\n') == (c == '\n')
  {
  }

  /** Turning backslashes into slashes and back restores a path that had no
      slashes. */
  lemma ReplaceBack(p: string)
    requires '/' !in p
    ensures Replace(Replace(p, '\\', '/'), '/', '\\') == p
  {
    var q := Replace(Replace(p, '\\', '/'), '/', '\\');
    assert forall i :: 0 <= i < |p| ==> q[i] == p[i];
  }

  /** Turning slashes into backslashes and back restores a path that had no
      backslashes. */
  lemma ReplaceForth(p: string)
    requires '\\' !in p
    ensures Replace(Replace(p, '/', '\\'), '\\', '/') == p
  {
    var q := Replace(Replace(p, '/', '\\'), '\\', '/');
    assert forall i :: 0 <= i < |p| ==> q[i] == p[i];
  }

  /** A Windows drive-letter path with backslash separators survives the trip
      to a URL path and back: getPath(setPath(p)) == p. */
  lemma DriveLetterRoundTrip(p: string)
    requires IsDriveLetterPath(p) && '/' !in p
    ensures SetPath(Windows, p) == "/" + Replace(p, '\\', '/')
    ensures GetPath(Windows, SetPath(Windows, p)) == p
  {
    var slashed := Replace(p, '\\', '/');
    DriveLetterUnderReplace(p, '\\', '/');
    assert slashed[0] == p[0];
    assert TrimLeft(slashed, '/') == slashed;
    TrimLeftOne(slashed, '/');
    ReplaceBack(p);
  }

  /** Replacing characters distributes over concatenation. */
  lemma ReplaceConcat(a: string, b: string, from: char, to: char)
    ensures Replace(a + b, from, to) == Replace(a, from, to) + Replace(b, from, to)
  {
    var l := Replace(a + b, from, to);
    var r := Replace(a, from, to) + Replace(b, from, to);
    assert forall i :: 0 <= i < |a| ==> l[i] == r[i];
    assert forall i :: |a| <= i < |l| ==> l[i] == r[i];
  }

  /** Two leading slashes before a string that does not start with one are
      trimmed. */
  lemma TrimLeftTwo(s: string)
    requires s == [] || s[0] != '/'
    ensures TrimLeft("//" + s, '/') == s
  {
    var two := "//" + s;
    var one := "/" + s;
    assert two[0] == '/' && two[1..] == one;
    assert one[0] == '/' && one[1..] == s;
    calc {
      TrimLeft(two, '/');
      TrimLeft(one, '/');
      TrimLeft(s, '/');
    }
  }

  /** setPath of a UNC path (two leading backslashes, then a name that is
      neither a separator nor a drive) drops the two separators. */
  lemma UncSetPath(rest: string)
    requires rest != [] && rest[0] != '\\' && '/' !in rest && !IsDriveLetterPath(rest)
    ensures SetPath(Windows, "\\\\" + rest) == Replace(rest, '\\', '/')
  {
    var slashed := Replace(rest, '\\', '/');
    ReplaceConcat("\\\\", rest, '\\', '/');
    assert Replace("\\\\", '\\', '/') == "//";
    assert slashed[0] != '/';
    TrimLeftTwo(slashed);
    DriveLetterUnderReplace(rest, '\\', '/');
  }

  /** The UNC path survives the round trip: getPath(setPath(p)) == p. */
  lemma UncRoundTrip(rest: string)
    requires rest != [] && rest[0] != '\\' && '/' !in rest && !IsDriveLetterPath(rest)
    ensures GetPath(Windows, SetPath(Windows, "\\\\" + rest)) == "\\\\" + rest
  {
    UncSetPath(rest);
    var slashed := Replace(rest, '\\', '/');
    assert slashed[0] != '/';
    assert TrimLeft(slashed, '/') == slashed;
    DriveLetterUnderReplace(rest, '\\', '/');
    ReplaceConcat("//", slashed, '/', '\\');
    assert Replace("//", '/', '\\') == "\\\\";
    ReplaceBack(rest);
  }

  /** getPath on the URL form of a drive-letter path written with slashes. */
  lemma GetPathOfDriveUrl(d: string)
    requires IsDriveLetterPath(d)
    ensures GetPath(Windows, "/" + d) == Replace(d, '/', '\\')
  {
    TrimLeftOne(d, '/');
    assert TrimLeft(d, '/') == d;
  }

  /** The reverse trip: the URL form of a drive-letter path, written with
      slashes, survives getPath followed by setPath. */
  lemma CanonicalRoundTrip(d: string)
    requires IsDriveLetterPath(d) && '\\' !in d
    ensures SetPath(Windows, GetPath(Windows, "/" + d)) == "/" + d
  {
    GetPathOfDriveUrl(d);
    var native := Replace(d, '/', '\\');
    ReplaceForth(d);
    DriveLetterUnderReplace(d, '/', '\\');
    assert native[0] == d[0];
    assert TrimLeft(d, '/') == d;
  }

  /** setPath is idempotent: its output is already in URL form. */
  lemma SetPathIdempotent(goos: string, path: string)
    ensures SetPath(goos, SetPath(goos, path)) == SetPath(goos, path)
  {
    if goos == Windows {
      var once := SetPath(goos, path);
      var p := TrimLeft(Replace(path, '\\', '/'), '/');
      assert Replace(once, '\\', '/') == once;
      if IsDriveLetterPath(p) {
        TrimLeftOne(p, '/');
      }
      assert TrimLeft(once, '/') == p;
    }
  }
}
