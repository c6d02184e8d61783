# Include resolution of configuration files, in Dafny

This project models the include resolution of `loader.go`. A configuration
document may name further documents in its `includes`. The loader:

- resolves each include string to a URL relative to the including document's
  URL, or relative to the working directory for a document supplied as bytes;
- fetches the included documents;
- recurses into them, refusing a URL that is already among its ancestors;
- returns every document in post-order: the included documents first, in the
  order they are declared, and then the including document.

The model has six modules:

- `Results`: `Option` and `Result`.
- `Errors`: the kinds of error the loader returns.
- `Urls`: the part of Go's `net/url` that the loader relies on. This is the
  URL record and reference resolution, including the removal of dot segments.
- `Paths`: `setPath` and `getPath`, which convert between native paths and
  file-URL paths.
- `Locators`: `workingDir`, `toURL`, `toURLs` and `containsURL`. The loop of
  `toURLs` is the method `ToUrls`, proved against the function `ResolvedAll`.
  The loop of `containsURL` is the method `ContainsUrl`, proved against
  sequence membership.
- `IncludeGraph`: specification functions of the four mutually recursive
  loader functions. It holds the lemmas about the traversal: short cuts, the
  cycle check, sibling order and fail-fast, the ancestor chain, termination,
  and post-order.

A seventh module, `Traversal`, holds the Go loops as methods. Each method
computes exactly its specification function, so the `IncludeGraph` lemmas
hold for the methods too.

Each specification function returns a `Run`. A `Run` holds the result and
the URLs fetched on the way, in order. The fetch log is what makes
statements such as "the later siblings are never fetched" expressible.

The Go recursion has no depth bound. When the URLs it can reach are finite, the
cycle check ends it. An infinite chain of distinct URLs is followed without
end. The specification functions take a `fuel` argument, and running out of fuel is
a separate outcome, `OutOfFuel`, that no error of the source can produce. Two
lemmas show that fuel is only a bound:

- `FuelMonotone*`: more fuel changes nothing once a load finishes.
- `EnoughFuel*`: on a finite set of URLs closed under inclusion, fuel above
  the number of URLs not yet on the ancestor chain never runs out.

What the loader calls out to is a parameter.

`Locators.Platform` holds:

- `runtime.GOOS`;
- the answer of `os.Getwd`;
- `url.Parse`;
- `(*url.URL).ResolveReference`.

`StandardResolution` says that the platform's resolution is the model
`Urls.ResolveReference`.

`IncludeGraph.Loader` holds:

- `loadURL`, as `fetch`;
- the document factory, `newFiledata`;
- the include resolver, `toUrls`.

`ResolvesIncludes` says that the resolver is `toURLs` on the loader's platform
(`Locators.ResolvedAll`). The traversal lemmas hold for any resolver. The
methods, and the lemmas about blank or unparsable includes, require
`ResolvesIncludes`.

On Windows, `setPath` strips every leading slash (`strings.TrimLeft`), not
just one, and the model does the same.

## Model

| member | source | states |
|---|---|---|
| IncludeGraph.Open | loader.go:54-62 | loadURL, then the document factory applied to the bytes and the URL; either error is returned as it is |
| IncludeGraph.Extend | loader.go:98-104 | the ancestor chain for the includes: the parent chain, with the document's URL appended only when there is one |
| IncludeGraph.Then | loader.go:41-50 | one load after another: a failure of the first ends the sequence; otherwise the documents and the fetch logs are concatenated |
| IncludeGraph.LoadedUrls | loader.go:38-51 | loadURLsRecursive as a specification: the sibling URLs loaded in order, stopping at the first failure |
| IncludeGraph.LoadedUrl | loader.go:53-65 | loadURLRecursive as a specification: the URL fetched and parsed, then the document loaded under that URL |
| IncludeGraph.LoadedData | loader.go:67-82 | loadDataRecursive as a specification: each supplied document loaded with no URL, in order, stopping at the first failure |
| IncludeGraph.LoadedDatum | loader.go:84-117 | loadDatumRecursive as a specification: an empty document gives nothing; a URL on the chain is refused; otherwise the includes are resolved and loaded under the extended chain, and the document comes after them |
| Traversal.LoadUrlsRecursive | loader.go:38-51 | the loop over sibling URLs returns what `LoadedUrls` specifies and fetches what it says, in order |
| Traversal.LoadUrlRecursive | loader.go:53-65 | fetch, document factory, then the document loaded under its own URL; equals `LoadedUrl`, including the fetch log |
| Traversal.LoadDataRecursive | loader.go:67-82 | the loop over documents supplied without a URL equals `LoadedData` |
| Traversal.LoadDatumRecursive | loader.go:84-117 | empty check, cycle check, include resolution, extended chain and post-order append; equals `LoadedDatum` |
| Traversal.WrapFiledatas | loader.go:119-136 | succeeds iff the factory accepts every blob with the empty URL; the documents are then the factory's, in order; otherwise the error is that of the first blob refused |
| IncludeGraph.EmptyShortCircuit | loader.go:85-87 | an empty document yields no documents and no error, and nothing is resolved or fetched |
| IncludeGraph.CycleRefused | loader.go:89-91 | a non-empty document whose URL is on the ancestor chain fails with errRecursiveURL naming that URL and fetches nothing |
| IncludeGraph.ResolutionFailureFetchesNothing | loader.go:93-96 | when an include is blank or does not parse, the load fails with the first such error before any include is fetched |
| IncludeGraph.ThenAssociative | loader.go:41-50 | sequencing loads is associative, so results concatenate in order however the siblings are grouped |
| IncludeGraph.ThenNothing | loader.go:39 | the empty run is a left unit of sequencing |
| IncludeGraph.ThenNothingRight | loader.go:50 | the empty run is a right unit of sequencing |
| IncludeGraph.LoadedUrlsFrom | loader.go:41-48 | a suffix of the sibling URLs loads as its first URL followed by the rest |
| IncludeGraph.LoadedDataFrom | loader.go:70-79 | a suffix of the supplied documents loads as its first document followed by the rest |
| IncludeGraph.LoadedUrlsAppend | loader.go:41-50 | loading `a + b` is loading `a` then `b`: documents and fetches concatenate, and `b` is not touched when `a` fails |
| IncludeGraph.LoadedDataAppend | loader.go:70-81 | the same for documents supplied without a URL |
| IncludeGraph.LoadedUrlsOk | loader.go:41-50 | a list of URLs loads iff each URL loads |
| IncludeGraph.LoadedDataOk | loader.go:70-81 | a list of documents loads iff each document loads |
| IncludeGraph.FailFast | loader.go:42-45 | the first failing URL decides the error, and the load equals the load of the prefix ending at it, so later siblings are never fetched |
| IncludeGraph.DataFailFast | loader.go:73-76 | the same for documents supplied without a URL |
| IncludeGraph.FuelMonotoneUrls | loader.go:38-51 | a load of URLs that finishes gives the same run with any larger fuel |
| IncludeGraph.FuelMonotoneUrl | loader.go:53-65 | the same for one URL |
| IncludeGraph.FuelMonotoneDatum | loader.go:84-117 | the same for one document |
| IncludeGraph.FuelMonotoneData | loader.go:67-82 | the same for supplied documents |
| IncludeGraph.ExtendKeepsNoDuplicates | loader.go:89-104 | the chain handed to the includes stays duplicate-free, because a URL is appended only after the cycle check lets it through |
| IncludeGraph.DistinctCount | loader.go:98-104 | a duplicate-free chain has as many distinct URLs as entries |
| IncludeGraph.ChainShorter | loader.go:89-104 | a duplicate-free chain within a URL set that misses one of its URLs is shorter than the set |
| IncludeGraph.ChainAtMostUniverse | loader.go:98-104 | a duplicate-free chain within a URL set is no longer than the set |
| IncludeGraph.EnoughFuelUrls | loader.go:38-51 | on a finite closed URL set, fuel above the URLs not on the chain never runs out: the cycle check alone ends the recursion |
| IncludeGraph.EnoughFuelUrl | loader.go:53-65 | the same for one URL, whose document extends the chain by its URL |
| IncludeGraph.EnoughFuelData | loader.go:67-82 | the same for supplied documents, whose includes resolve against the working directory |
| IncludeGraph.IncludeFails | loader.go:106-109 | when an include fails and the includes before it load, the including URL fails with the same failure |
| IncludeGraph.UrlOnChainRefused | loader.go:89-91 | a URL on the chain whose document is not empty fails with errRecursiveURL naming it |
| IncludeGraph.IncludePathTail | loader.go:98-109 | an include path seen from its second URL, with the first moved onto the ancestor chain and one level of fuel spent, is still an include path |
| IncludeGraph.CycleAlongIncludes | loader.go:89-109 | following includes (each at any position whose earlier siblings load) through distinct URLs back to one on the chain or the path makes the first URL fail with errRecursiveURL naming the repeated URL |
| IncludeGraph.CycleThroughIncludes | loader.go:89-109 | a cycle A includes B includes ... includes A, through includes whose earlier siblings load, makes the load of A fail with errRecursiveURL naming A |
| IncludeGraph.FirstIncludeCycle | loader.go:89-109 | a cycle through first includes is refused whatever else the documents include |
| IncludeGraph.NodeLoads | loader.go:106-116 | a URL whose includes load to `docs` loads to `docs + [its document]`, having fetched itself first |
| IncludeGraph.LoadedUrlsSingle | loader.go:41-50 | a one-URL list loads as that URL |
| IncludeGraph.LoadedUrlsPair | loader.go:41-50 | two sibling URLs that load give their documents and fetches concatenated in order |
| IncludeGraph.PostOrderExample | loader.go:106-116 | R includes [X, Y] and X includes [Z] loads as [Z, X, Y, R], fetching R, X, Z, Y |
| IncludeGraph.DiamondExample | loader.go:98-116 | R includes [A, B], and both include L: no false cycle, and the result is [L, A, L, B, R] |
| Locators.WorkingDir | loader.go:287-299 | workingDir: the getwd error, or `file://` + setPath(cwd) + `/` parsed |
| Locators.WorkingDirUrl | loader.go:287-299 | a getwd error is returned unchanged; a Unix directory is parsed as `file://<dir>/`; a Windows drive directory `C:\dir` is parsed as `file:///C:/dir/`, with forward slashes |
| Locators.Base | loader.go:253-258 | the URL relative paths resolve against: the root, or the working directory when there is no root |
| Locators.ToUrl | loader.go:246-271 | a blank path gives errBlankFilePath; a working-directory error propagates; a URL only comes from a non-blank path that parses against a known base |
| Locators.ToUrlParsed | loader.go:260-268 | a parse error is wrapped as "could not parse path"; an absolute URL is returned unchanged; a relative one is resolved against the base and takes the base's query string |
| Locators.ToUrlStandard | loader.go:265-268 | with Go's resolution, a relative include keeps the base's scheme and host, its path is resolvePath(base, ref), and an absolute base gives an absolute URL |
| Locators.RootIgnoresWorkingDirectory | loader.go:253-258 | with a root URL the working directory is never consulted |
| Locators.BlankPathRefused | loader.go:247-249 | a blank path is refused whatever the root and the platform, before the working directory is read |
| Locators.ToUrlRelativeExample | loader.go:265-268 | `c.txt` below `file:///a/b/?env=prod` is `file:///a/b/c.txt?env=prod` |
| Locators.ResolvedAll | loader.go:231-244 | toURLs as a function: each path resolved against the root, stopping at the first failure |
| Locators.Collected | loader.go:234-243 | a sequence of steps that stops at the first failure succeeds iff every step does, and then holds their values in order |
| Locators.CollectedFirstFailure | loader.go:235-238 | the collected error is that of the first step that fails |
| Locators.ResolvedAllSpec | loader.go:231-244 | toURLs succeeds iff every path resolves, and then holds their URLs in order |
| Locators.FirstFailure | loader.go:234-238 | the error is that of the first path that fails |
| Locators.ToUrls | loader.go:231-244 | the loop returns exactly `ResolvedAll` |
| Locators.ContainsUrl | loader.go:273-285 | true iff the URL is present (not nil) and structurally equal to one of the list |
| Paths.IsDriveLetterPath | loader.go:27 | `^[A-Za-z]:.*$` as Go's regexp reads it: an ASCII letter, a colon, and no newline after the colon |
| Paths.Replace | loader.go:304 | strings.Replace for one character: same length, each `from` swapped for `to`, everything else kept |
| Paths.TrimLeft | loader.go:305 | the result is a suffix, everything cut was the cut character, and the result does not start with it |
| Paths.SetPath | loader.go:301-313 | identity off Windows; on Windows no backslash remains, and a leading slash only precedes a drive-letter path |
| Paths.GetPath | loader.go:315-328 | identity off Windows; on Windows no slash remains |
| Paths.DriveLetterUnderReplace | loader.go:307 | swapping separators never changes whether a path matches the drive-letter pattern |
| Paths.ReplacedAway | loader.go:304 | after replacing every occurrence of a character, none is left |
| Paths.TrimLeftKeepsAbsent | loader.go:305 | trimming adds no character |
| Paths.TrimLeftOne | loader.go:318 | one leading slash before a string that does not start with one is all that is trimmed |
| Paths.SlashedHasNoBackslash | loader.go:304-305 | no backslash is left after the separator swap and the trimming |
| Paths.SeparatorSwap | loader.go:307 | a character after a separator swap is a letter, a colon or a newline exactly when it was before |
| Paths.ReplaceBack | loader.go:304 | backslashes to slashes and back restores a path without slashes |
| Paths.ReplaceForth | loader.go:324 | slashes to backslashes and back restores a path without backslashes |
| Paths.DriveLetterRoundTrip | loader.go:301-328 | `C:\a\b` becomes `/C:/a/b`, and getPath(setPath(p)) == p for every drive-letter path without slashes |
| Paths.ReplaceConcat | loader.go:304 | character replacement distributes over concatenation |
| Paths.TrimLeftTwo | loader.go:305 | two leading slashes are trimmed from a string that does not start with a slash |
| Paths.UncSetPath | loader.go:301-313 | `\\server\share` becomes `server/share` |
| Paths.UncRoundTrip | loader.go:301-328 | getPath(setPath(p)) == p for a UNC path |
| Paths.GetPathOfDriveUrl | loader.go:315-328 | getPath of `/C:/a` is `C:\a` |
| Paths.CanonicalRoundTrip | loader.go:301-328 | setPath(getPath(`/C:/...`)) gives the URL path back |
| Paths.SetPathIdempotent | loader.go:301-313 | setPath applied twice is setPath applied once |
| Urls.IsAbs | loader.go:265 | url.IsAbs: a URL is absolute exactly when its scheme is not empty |
| Urls.LastSlash | loader.go:266 | the index of the last slash, or -1 |
| Urls.Merge | loader.go:266 | a rooted reference replaces the base path; otherwise the reference follows a prefix of the base |
| Urls.Split | loader.go:266 | strings.Split(s, "/") inside resolvePath: the slash-free elements of s, at least one |
| Urls.Join | loader.go:266 | strings.Join(elems, "/"): the elements with one slash between neighbours |
| Urls.IndexSlash | loader.go:266 | strings.IndexByte(s, '/') inside resolvePath: the index of a slash, or -1 |
| Urls.IndexSlashFirst | loader.go:266 | the index found is that of the first slash, and -1 means there is none |
| Urls.JoinCons | loader.go:266 | joining an element in front of a non-empty list puts one slash between them |
| Urls.JoinSplit | loader.go:266 | joining the split elements of a path gives the path back |
| Urls.SplitElementsNoSlash | loader.go:266 | no split element contains a slash |
| Urls.Walk | loader.go:266 | the loop of resolvePath: `.` is dropped, `..` removes the last written element, anything else is appended, after a slash unless nothing has been written yet; the output stays rooted |
| Urls.WalkPlain | loader.go:266 | without dot segments, the walk of resolvePath only re-joins the elements |
| Urls.ResolvePath | loader.go:266 | empty only for an empty merge; otherwise rooted |
| Urls.ResolvePlainPath | loader.go:266 | a rooted merged path without dot segments resolves to itself |
| Urls.ResolveReference | loader.go:266 | the scheme is the reference's, or the base's when it has none; a reference without scheme and host keeps the base's host |
| Urls.ResolveAgainstAbsolute | loader.go:266 | resolving against an absolute base gives an absolute URL |
| Urls.ResolvePathRelativeExample | loader.go:266 | resolvePath("/a/b/", "c.txt") == "/a/b/c.txt" |
| Urls.ResolvePathRootedExample | loader.go:266 | resolvePath("/a/b/", "/c.txt") == "/c.txt" |
| Urls.ResolvePathParentExample | loader.go:266 | resolvePath("/a/b/", "../c.txt") == "/a/c.txt" |
| Urls.ResolveExamples | loader.go:266 | `c.txt` and `/c.txt` resolved against `file:///a/b/` |

## Left out

- `loadURL` (loader.go:138-171), `loadConfigFromBucket` and `newTransport` are input and output. They are the `fetch` function of a `Loader`. The model therefore does not capture the file-then-HTTP fallback for `file` URLs, the storage-bucket read, the HTTP status check, the close-error logging, or the timeouts.
- `fetch` and `newFiledata` are deterministic functions. Go's `loadURL`, which `fetch` stands for, reads the network or the disk and could answer differently on a second call. `newFiledata` only parses bytes already fetched.
- `os.Getwd` is a constant `Result` in the platform, read afresh by each `workingDir` call.
- `url.Parse` is an abstract function. Percent-encoding, user information, opaque URLs, `RawPath`, `ForceQuery` and `RawFragment` are not modelled, and `Url` keeps only scheme, host, path, query and fragment. `containsURL` compares these fields only; the next two lines say what that costs.
- Locators.ContainsUrl: compares only the five kept fields. Go's `*u == *searchURL` (loader.go:279) also compares `User`, a `*url.Userinfo` pointer. `url.Parse` allocates a new one on every call. So two separately parsed absolute includes carrying user information (`https://user@host/a.yaml`) are never equal in Go. Go does not detect a cycle through such URLs and recurses without end. Relative includes copy the base's pointer during resolution, so their cycles are detected as modelled.
- IncludeGraph.EnoughFuelUrls, IncludeGraph.CycleThroughIncludes: for cycles through absolute includes that carry user information, these promise refusal and termination, but Go does neither (see the line above).
- `(*url.URL).ResolveReference` is a platform function. `Urls.ResolveReference` models Go's behaviour on the kept fields. Lemmas that need its behaviour require `StandardResolution`.
- The message text of wrapped errors and all logging are left out. Errors keep their kind and the URL or status they name.
- The model's recursion takes `fuel`, which the Go code does not have. `OutOfFuel` is an outcome of the model only. `EnoughFuelUrls`, `EnoughFuelUrl` and `EnoughFuelData` show it never occurs when the reachable URLs form a finite closed set. An infinite chain of distinct URLs, which Go would follow until the stack overflows, is cut off by the fuel.
- The traversal reaches `toURLs` through `Loader.toUrls`. `ResolvesIncludes` ties it to `Locators.ResolvedAll`, and every traversal method except `WrapFiledatas` requires it.
- The slices built by `append` are sequences. Go's aliasing of slice backing arrays does not arise in this code and is not modelled.
