/** Turning include strings into URLs: workingDir, toURL, toURLs and
    containsURL. */
module Locators {
  import opened Results
  import opened Urls
  import opened Errors
  import Paths

  /** What toURL reads from its surroundings: the operating system name
      (runtime.GOOS), the answer of os.Getwd, and the two net/url library
      calls, url.Parse and (*url.URL).ResolveReference. Parsing stays
      abstract; Urls.ResolveReference is a model of the library's reference
      resolution, and StandardResolution says that a platform uses it. */
  datatype Platform = Platform(
    goos: string,
    getwd: Result<string, Error>,
    parse: string -> Result<Url, Error>,
    resolve: (Url, Url) -> Url)

  /** The platform resolves references as Go's net/url does. */
  ghost predicate StandardResolution(p: Platform) {
    forall base: Url, ref: Url :: p.resolve(base, ref) == ResolveReference(base, ref)
  }

  /** workingDir: the URL `file://<cwd>/`. Errors from os.Getwd and from
      url.Parse are returned as they are. */
  function WorkingDir(p: Platform): Result<Url, Error>
  {
    match p.getwd
    case Err(e) => Err(e)
    case Ok(cwd) => p.parse("file://" + Paths.SetPath(p.goos, cwd) + "/")
  }

  /** The text parsed for the working directory: a Unix directory is put
      after `file://` as it is, so `/home/u` gives `file:///home/u/`; a
      Windows drive directory `C:\dir` gets forward slashes and the third
      slash of an empty host, `file:///C:/dir/`. A getwd error is returned
      unchanged and nothing is parsed. */
  lemma WorkingDirUrl(p: Platform)
    ensures p.getwd.Err? ==> WorkingDir(p) == Err(p.getwd.error)
    ensures p.getwd.Ok? && p.goos != Paths.Windows ==> WorkingDir(p) == p.parse("file://" + p.getwd.value + "/")
    ensures p.getwd.Ok? && p.goos == Paths.Windows && Paths.IsDriveLetterPath(p.getwd.value) && '/' !in p.getwd.value ==>
              WorkingDir(p) == p.parse("file:///" + Paths.Replace(p.getwd.value, '\\', '/') + "/")
  {
    if p.getwd.Ok? && p.goos == Paths.Windows && Paths.IsDriveLetterPath(p.getwd.value) && '/' !in p.getwd.value {
      var cwd := p.getwd.value;
      Paths.DriveLetterRoundTrip(cwd);
      assert "file://" + ("/" + Paths.Replace(cwd, '\\', '/')) + "/" == "file:///" + Paths.Replace(cwd, '\\', '/') + "/";
    }
  }

  /** The URL that relative paths are resolved against: the root, or the
      working directory when there is none (a nil *url.URL in Go). */
  function Base(p: Platform, root: Option<Url>): Result<Url, Error>
  {
    if root.Some? then Ok(root.value) else WorkingDir(p)
  }

  /** toURL: resolve `path` against `root`, or against the working directory
      when there is no root. A blank path is refused before anything else; a
      result is only produced when the base is known and the path parses. */
  function ToUrl(p: Platform, root: Option<Url>, path: string): (r: Result<Url, Error>)
    ensures path == "" ==> r == Err(BlankFilePath)
    ensures path != "" && Base(p, root).Err? ==> r == Err(Base(p, root).error)
    ensures r.Ok? ==> path != "" && Base(p, root).Ok? && p.parse(Paths.SetPath(p.goos, path)).Ok?
  {
    if path == "" then Err(BlankFilePath)
    else
      var base := Base(p, root);
      if base.Err? then Err(base.error)
      else
        match p.parse(Paths.SetPath(p.goos, path))
        case Err(e) => Err(CouldNotParse(e))
        case Ok(u) =>
          if IsAbs(u) then Ok(u)
          else Ok(p.resolve(base.value, u).(rawQuery := base.value.rawQuery))
  }

  /** A path that parses to an absolute URL is used as it is, whatever the
      root; a relative one is resolved against the base and takes the base's
      query string. A parse failure is reported as such. */
  lemma ToUrlParsed(p: Platform, root: Option<Url>, path: string)
    requires path != "" && Base(p, root).Ok?
    ensures var parsed := p.parse(Paths.SetPath(p.goos, path));
            var base := Base(p, root).value;
            var r := ToUrl(p, root, path);
            && (parsed.Err? ==> r == Err(CouldNotParse(parsed.error)))
            && (parsed.Ok? && IsAbs(parsed.value) ==> r == Ok(parsed.value))
            && (parsed.Ok? && !IsAbs(parsed.value) ==>
                  && r.Ok?
                  && r.value.rawQuery == base.rawQuery
                  && r.value.(rawQuery := "") == p.resolve(base, parsed.value).(rawQuery := ""))
  {
  }

  /** With Go's reference resolution, a relative path keeps the base's scheme
      and (unless it names a host) the base's host and directory. */
  lemma ToUrlStandard(p: Platform, root: Option<Url>, path: string)
    requires StandardResolution(p)
    requires path != "" && Base(p, root).Ok?
    requires p.parse(Paths.SetPath(p.goos, path)).Ok? && !IsAbs(p.parse(Paths.SetPath(p.goos, path)).value)
    ensures var parsed := p.parse(Paths.SetPath(p.goos, path)).value;
            var base := Base(p, root).value;
            var r := ToUrl(p, root, path);
            && r.Ok?
            && r.value.scheme == base.scheme
            && (parsed.host == "" ==> r.value.host == base.host)
            && (parsed.host == "" ==> r.value.path == ResolvePath(base.path, parsed.path))
            && (IsAbs(base) ==> IsAbs(r.value))
  {
  }

  /** The root, when there is one, is all that is used: the working
      directory is not consulted. */
  lemma RootIgnoresWorkingDirectory(p: Platform, root: Url, path: string, cwd: Result<string, Error>)
    ensures ToUrl(p, Some(root), path) == ToUrl(p.(getwd := cwd), Some(root), path)
  {
  }

  /** A blank path is refused whatever the root and whatever the platform,
      even one whose working directory cannot be read. */
  lemma BlankPathRefused(p: Platform, q: Platform, root: Option<Url>, other: Option<Url>)
    ensures ToUrl(p, root, "") == ToUrl(q, other, "") == Err(BlankFilePath)
  {
  }

  /** An include such as `c.txt` below `file:///a/b/?env=prod` names
      `file:///a/b/c.txt?env=prod`: the including document's directory and
      its query string are carried over. */
  lemma ToUrlRelativeExample(p: Platform)
    requires StandardResolution(p) && p.goos != Paths.Windows
    requires p.parse("c.txt") == Ok(Url("", "", "c.txt", "", ""))
    ensures ToUrl(p, Some(Url("file", "", "/a/b/", "env=prod", "")), "c.txt")
         == Ok(Url("file", "", "/a/b/c.txt", "env=prod", ""))
  {
    ResolveExamples();
  }

  /** The results of a sequence of steps, stopping at the first that fails:
      it succeeds exactly when every step does, and then holds their values
      in order. */
  function Collected(results: seq<Result<Url, Error>>): (r: Result<seq<Url>, Error>)
    ensures r.Ok? <==> forall i :: 0 <= i < |results| ==> results[i].Ok?
    ensures r.Ok? ==> |r.value| == |results| &&
                      forall i :: 0 <= i < |results| ==> r.value[i] == results[i].value
  {
    if results == [] then Ok([])
    else
      match results[0]
      case Err(e) => Err(e)
      case Ok(u) =>
        var rest := Collected(results[1..]);
        assert forall i :: 1 <= i < |results| ==> results[i] == results[1..][i - 1];
        if rest.Err? then Err(rest.error)
        else
          var all := [u] + rest.value;
          assert forall i :: 1 <= i < |results| ==> all[i] == rest.value[i - 1];
          Ok(all)
  }

  /** The error collected is that of the first step that fails. */
  lemma {:induction false} CollectedFirstFailure(results: seq<Result<Url, Error>>, k: nat)
    requires k < |results| && results[k].Err?
    requires forall j :: 0 <= j < k ==> results[j].Ok?
    ensures Collected(results) == Err(results[k].error)
    decreases k
  {
    if k > 0 {
      assert results[1..][k - 1] == results[k];
      assert forall j :: 0 <= j < k - 1 ==> results[1..][j] == results[j + 1];
      CollectedFirstFailure(results[1..], k - 1);
    }
  }

  /** toURLs as a function: the paths resolved one by one, stopping at the
      first that fails (ResolvedAllSpec and FirstFailure state its result). */
  function ResolvedAll(p: Platform, root: Option<Url>, paths: seq<string>): Result<seq<Url>, Error>
  {
    Collected(seq(|paths|, i requires 0 <= i < |paths| => ToUrl(p, root, paths[i])))
  }

  /** toURLs succeeds exactly when every path resolves, and then holds their
      URLs in order. */
  lemma ResolvedAllSpec(p: Platform, root: Option<Url>, paths: seq<string>)
    ensures ResolvedAll(p, root, paths).Ok? <==> forall i :: 0 <= i < |paths| ==> ToUrl(p, root, paths[i]).Ok?
    ensures ResolvedAll(p, root, paths).Ok? ==>
              |ResolvedAll(p, root, paths).value| == |paths| &&
              forall i :: 0 <= i < |paths| ==> ResolvedAll(p, root, paths).value[i] == ToUrl(p, root, paths[i]).value
  {
    var results := seq(|paths|, i requires 0 <= i < |paths| => ToUrl(p, root, paths[i]));
    assert forall i :: 0 <= i < |paths| ==> results[i] == ToUrl(p, root, paths[i]);
  }

  /** The error reported is that of the first path that fails. */
  lemma FirstFailure(p: Platform, root: Option<Url>, paths: seq<string>, k: nat)
    requires k < |paths| && ToUrl(p, root, paths[k]).Err?
    requires forall j :: 0 <= j < k ==> ToUrl(p, root, paths[j]).Ok?
    ensures ResolvedAll(p, root, paths) == Err(ToUrl(p, root, paths[k]).error)
  {
    var results := seq(|paths|, i requires 0 <= i < |paths| => ToUrl(p, root, paths[i]));
    CollectedFirstFailure(results, k);
  }

  /** toURLs: the loop over the include paths, appending each URL. */
  method ToUrls(p: Platform, root: Option<Url>, paths: seq<string>) returns (r: Result<seq<Url>, Error>)
    ensures r == ResolvedAll(p, root, paths)
  {
    var urls: seq<Url> := [];
    for i := 0 to |paths|
      invariant |urls| == i
      invariant forall j :: 0 <= j < i ==> ToUrl(p, root, paths[j]) == Ok(urls[j])
    {
      var url := ToUrl(p, root, paths[i]);
      if url.Err? {
        FirstFailure(p, root, paths, i);
        return Err(url.error);
      }
      urls := urls + [url.value];
    }
    ResolvedAllSpec(p, root, paths);
    var all := ResolvedAll(p, root, paths);
    assert all.Ok? && all.value == urls;
    return Ok(urls);
  }

  /** containsURL: whether a non-nil URL is structurally equal to one of the
      ancestors. A nil URL (a document supplied without a URL) never is. */
  method ContainsUrl(search: Option<Url>, urls: seq<Url>) returns (found: bool)
    ensures found <==> search.Some? && search.value in urls
  {
    if search.None? {
      return false;
    }
    for i := 0 to |urls|
      invariant search.value !in urls[..i]
    {
      if urls[i] == search.value {
        return true;
      }
    }
    return false;
  }
}
