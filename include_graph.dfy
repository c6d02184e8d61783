/** The recursive include resolution of loader.go as functions: what
    loadURLsRecursive, loadURLRecursive, loadDatumRecursive and
    loadDataRecursive compute, together with the URLs they fetch, and the
    properties of the traversal. */
module IncludeGraph {
  import opened Results
  import opened Urls
  import opened Errors
  import opened Locators

  type Bytes = seq<bv8>

  /** A filedata as the loader sees it: the bytes it came from, whether it is
      empty, and the include strings it declares, in order. */
  datatype Document = Document(bytes: Bytes, empty: bool, includes: seq<string>)

  /** The loader with what it calls out to: `fetch` is loadURL (file, HTTP or
      storage bucket), `newFiledata` is the loader's document factory, and
      `toUrls` resolves a document's includes against its URL. Fetching and
      the factory are deterministic in the model; `toUrls` is toURLs on the
      loader's platform when ResolvesIncludes holds. */
  datatype Loader = Loader(
    platform: Platform,
    fetch: Url -> Result<Bytes, Error>,
    newFiledata: (Bytes, Url) -> Result<Document, Error>,
    toUrls: (Option<Url>, seq<string>) -> Result<seq<Url>, Error>)

  /** The loader resolves includes with toURLs (Locators.ResolvedAll). The
      traversal lemmas below hold for any resolution; the ones about blank or
      unparsable includes need this one. */
  ghost predicate ResolvesIncludes(ld: Loader) {
    forall root: Option<Url>, paths: seq<string> :: ResolvesAs(ld, root, paths)
  }

  /** The loader resolves these includes as toURLs does. */
  ghost predicate ResolvesAs(ld: Loader, root: Option<Url>, paths: seq<string>) {
    ld.toUrls(root, paths) == ResolvedAll(ld.platform, root, paths)
  }

  /** Why a load did not finish: an error of the source, or the model's fuel
      ran out (the Go recursion has no such bound; see EnoughFuel). */
  datatype Failure = Because(error: Error) | OutOfFuel

  /** The outcome of a load: the documents or the failure, and the URLs
      fetched on the way, in the order they were fetched. */
  datatype Run = Run(result: Result<seq<Document>, Failure>, fetched: seq<Url>)

  const Nothing := Run(Ok([]), [])

  /** loadURL followed by newFiledata. */
  function Open(ld: Loader, url: Url): Result<Document, Error>
  {
    match ld.fetch(url)
    case Err(e) => Err(e)
    case Ok(bytes) => ld.newFiledata(bytes, url)
  }

  /** The ancestor chain handed to the includes of a document: the parent
      chain, plus the document's URL when it has one. */
  function Extend(chain: seq<Url>, url: Option<Url>): seq<Url>
  {
    if url.Some? then chain + [url.value] else chain
  }

  /** One load after another: the second only counts when the first
      succeeded; the documents are concatenated. */
  function Then(first: Run, next: Run): Run
  {
    if first.result.Err? then first
    else Run(if next.result.Err? then next.result else Ok(first.result.value + next.result.value),
             first.fetched + next.fetched)
  }

  /** loadURLsRecursive. */
  function LoadedUrls(ld: Loader, fuel: nat, chain: seq<Url>, urls: seq<Url>): Run
    decreases fuel, 1, |urls|
  {
    if urls == [] then Nothing
    else Then(LoadedUrl(ld, fuel, chain, urls[0]), LoadedUrls(ld, fuel, chain, urls[1..]))
  }

  /** loadURLRecursive: fetch and parse, then load the document. Each level
      of the recursion takes one unit of fuel. */
  function LoadedUrl(ld: Loader, fuel: nat, chain: seq<Url>, url: Url): Run
    decreases fuel, 0, 0
  {
    if fuel == 0 then Run(Err(OutOfFuel), [])
    else
      match Open(ld, url)
      case Err(e) => Run(Err(Because(e)), [url])
      case Ok(doc) =>
        var sub := LoadedDatum(ld, fuel - 1, chain, Some(url), doc);
        Run(sub.result, [url] + sub.fetched)
  }

  /** loadDatumRecursive: an empty document contributes nothing; a URL already
      among its ancestors is refused; otherwise the includes are resolved
      against the document's URL and loaded, and the document follows them. */
  function LoadedDatum(ld: Loader, fuel: nat, chain: seq<Url>, url: Option<Url>, doc: Document): Run
    decreases fuel, 2, 0
  {
    if doc.empty then Nothing
    else if url.Some? && url.value in chain then Run(Err(Because(RecursiveUrl(url.value))), [])
    else
      match ld.toUrls(url, doc.includes)
      case Err(e) => Run(Err(Because(e)), [])
      case Ok(children) =>
        var sub := LoadedUrls(ld, fuel, Extend(chain, url), children);
        Run(if sub.result.Err? then sub.result else Ok(sub.result.value + [doc]), sub.fetched)
  }

  /** loadDataRecursive: documents supplied without a URL. */
  function LoadedData(ld: Loader, fuel: nat, chain: seq<Url>, docs: seq<Document>): Run
    decreases fuel, 3, |docs|
  {
    if docs == [] then Nothing
    else Then(LoadedDatum(ld, fuel, chain, None, docs[0]), LoadedData(ld, fuel, chain, docs[1..]))
  }

  // ---------------------------------------------------------------------
  // Short cuts of a single node

  /** An empty document yields nothing and no error; its includes are neither
      resolved nor fetched. */
  lemma EmptyShortCircuit(ld: Loader, fuel: nat, chain: seq<Url>, url: Option<Url>, doc: Document)
    requires doc.empty
    ensures LoadedDatum(ld, fuel, chain, url, doc) == Run(Ok([]), [])
  {
  }

  /** A non-empty document whose URL is among its ancestors is refused with
      errRecursiveURL naming that URL, and nothing more is fetched. */
  lemma CycleRefused(ld: Loader, fuel: nat, chain: seq<Url>, url: Url, doc: Document)
    requires !doc.empty && url in chain
    ensures LoadedDatum(ld, fuel, chain, Some(url), doc) == Run(Err(Because(RecursiveUrl(url))), [])
  {
  }

  /** All includes are resolved before any is fetched: when one is blank or
      does not parse, the first such error is returned and nothing is
      fetched. */
  lemma ResolutionFailureFetchesNothing(ld: Loader, fuel: nat, chain: seq<Url>, url: Option<Url>,
                                        doc: Document, k: nat)
    requires ResolvesIncludes(ld)
    requires !doc.empty && !(url.Some? && url.value in chain)
    requires k < |doc.includes| && ToUrl(ld.platform, url, doc.includes[k]).Err?
    requires forall j :: 0 <= j < k ==> ToUrl(ld.platform, url, doc.includes[j]).Ok?
    ensures LoadedDatum(ld, fuel, chain, url, doc)
         == Run(Err(Because(ToUrl(ld.platform, url, doc.includes[k]).error)), [])
  {
    assert ResolvesAs(ld, url, doc.includes);
    FirstFailure(ld.platform, url, doc.includes, k);
  }

  // ---------------------------------------------------------------------
  // Siblings: in-order concatenation and fail-fast

  lemma ThenAssociative(a: Run, b: Run, c: Run)
    ensures Then(Then(a, b), c) == Then(a, Then(b, c))
  {
    assert (a.fetched + b.fetched) + c.fetched == a.fetched + (b.fetched + c.fetched);
    if a.result.Ok? && b.result.Ok? && c.result.Ok? {
      assert (a.result.value + b.result.value) + c.result.value
          == a.result.value + (b.result.value + c.result.value);
    }
  }

  /** Nothing is a unit of Then. */
  lemma ThenNothing(r: Run)
    ensures Then(Nothing, r) == r
  {
    assert [] + r.fetched == r.fetched;
    if r.result.Ok? {
      assert [] + r.result.value == r.result.value;
    }
  }

  /** Nothing is a unit of Then on the right as well. */
  lemma ThenNothingRight(r: Run)
    ensures Then(r, Nothing) == r
  {
    assert r.fetched + [] == r.fetched;
    if r.result.Ok? {
      assert r.result.value + [] == r.result.value;
    }
  }

  /** The suffix of a list of URLs from position i loads as the URL at i
      followed by the suffix after it. */
  lemma LoadedUrlsFrom(ld: Loader, fuel: nat, chain: seq<Url>, urls: seq<Url>, i: nat)
    requires i < |urls|
    ensures LoadedUrls(ld, fuel, chain, urls[i..])
         == Then(LoadedUrl(ld, fuel, chain, urls[i]), LoadedUrls(ld, fuel, chain, urls[i + 1..]))
  {
    assert urls[i..][0] == urls[i] && urls[i..][1..] == urls[i + 1..];
  }

  /** The same for documents supplied without a URL. */
  lemma LoadedDataFrom(ld: Loader, fuel: nat, chain: seq<Url>, docs: seq<Document>, i: nat)
    requires i < |docs|
    ensures LoadedData(ld, fuel, chain, docs[i..])
         == Then(LoadedDatum(ld, fuel, chain, None, docs[i]), LoadedData(ld, fuel, chain, docs[i + 1..]))
  {
    assert docs[i..][0] == docs[i] && docs[i..][1..] == docs[i + 1..];
  }

  /** Loading a list of URLs is loading its two halves one after the other:
      the results are concatenated in order, and when the first half fails
      the second is never fetched. */
  lemma {:induction false} LoadedUrlsAppend(ld: Loader, fuel: nat, chain: seq<Url>, a: seq<Url>, b: seq<Url>)
    ensures LoadedUrls(ld, fuel, chain, a + b) == Then(LoadedUrls(ld, fuel, chain, a), LoadedUrls(ld, fuel, chain, b))
    decreases |a|
  {
    if a == [] {
      assert a + b == b;
      ThenNothing(LoadedUrls(ld, fuel, chain, b));
    } else {
      assert (a + b)[0] == a[0];
      assert (a + b)[1..] == a[1..] + b;
      LoadedUrlsAppend(ld, fuel, chain, a[1..], b);
      ThenAssociative(LoadedUrl(ld, fuel, chain, a[0]), LoadedUrls(ld, fuel, chain, a[1..]), LoadedUrls(ld, fuel, chain, b));
    }
  }

  /** The same for documents supplied without a URL. */
  lemma {:induction false} LoadedDataAppend(ld: Loader, fuel: nat, chain: seq<Url>, a: seq<Document>, b: seq<Document>)
    ensures LoadedData(ld, fuel, chain, a + b) == Then(LoadedData(ld, fuel, chain, a), LoadedData(ld, fuel, chain, b))
    decreases |a|
  {
    if a == [] {
      assert a + b == b;
      ThenNothing(LoadedData(ld, fuel, chain, b));
    } else {
      assert (a + b)[0] == a[0];
      assert (a + b)[1..] == a[1..] + b;
      LoadedDataAppend(ld, fuel, chain, a[1..], b);
      ThenAssociative(LoadedDatum(ld, fuel, chain, None, a[0]), LoadedData(ld, fuel, chain, a[1..]), LoadedData(ld, fuel, chain, b));
    }
  }

  /** A list of URLs loads exactly when each of them loads. */
  lemma {:induction false} LoadedUrlsOk(ld: Loader, fuel: nat, chain: seq<Url>, urls: seq<Url>)
    ensures LoadedUrls(ld, fuel, chain, urls).result.Ok?
        <==> forall i :: 0 <= i < |urls| ==> LoadedUrl(ld, fuel, chain, urls[i]).result.Ok?
    decreases |urls|
  {
    if urls != [] {
      LoadedUrlsOk(ld, fuel, chain, urls[1..]);
      assert forall i :: 1 <= i < |urls| ==> urls[i] == urls[1..][i - 1];
    }
  }

  /** Fail-fast: when the k-th URL is the first to fail, the list fails with
      its failure, and what is fetched is what the first k + 1 URLs fetch; the
      URLs after it play no part. */
  lemma FailFast(ld: Loader, fuel: nat, chain: seq<Url>, urls: seq<Url>, k: nat)
    requires k < |urls| && LoadedUrl(ld, fuel, chain, urls[k]).result.Err?
    requires forall j :: 0 <= j < k ==> LoadedUrl(ld, fuel, chain, urls[j]).result.Ok?
    ensures LoadedUrls(ld, fuel, chain, urls).result == LoadedUrl(ld, fuel, chain, urls[k]).result
    ensures LoadedUrls(ld, fuel, chain, urls) == LoadedUrls(ld, fuel, chain, urls[..k + 1])
  {
    var before, failing, after := urls[..k], urls[k], urls[k + 1..];
    assert urls == before + [failing] + after;
    assert urls[..k + 1] == before + [failing];
    LoadedUrlsOk(ld, fuel, chain, before);
    LoadedUrlsAppend(ld, fuel, chain, before + [failing], after);
    LoadedUrlsAppend(ld, fuel, chain, before, [failing]);
    assert LoadedUrls(ld, fuel, chain, [failing]) == LoadedUrl(ld, fuel, chain, failing) by {
      assert [failing][1..] == [];
    }
  }

  /** A list of documents supplied without a URL loads exactly when each of
      them loads. */
  lemma {:induction false} LoadedDataOk(ld: Loader, fuel: nat, chain: seq<Url>, docs: seq<Document>)
    ensures LoadedData(ld, fuel, chain, docs).result.Ok?
        <==> forall i :: 0 <= i < |docs| ==> LoadedDatum(ld, fuel, chain, None, docs[i]).result.Ok?
    decreases |docs|
  {
    if docs != [] {
      LoadedDataOk(ld, fuel, chain, docs[1..]);
      assert forall i :: 1 <= i < |docs| ==> docs[i] == docs[1..][i - 1];
    }
  }

  /** Fail-fast for documents supplied without a URL: the first that fails
      decides the failure, and the documents after it are never loaded. */
  lemma DataFailFast(ld: Loader, fuel: nat, chain: seq<Url>, docs: seq<Document>, k: nat)
    requires k < |docs| && LoadedDatum(ld, fuel, chain, None, docs[k]).result.Err?
    requires forall j :: 0 <= j < k ==> LoadedDatum(ld, fuel, chain, None, docs[j]).result.Ok?
    ensures LoadedData(ld, fuel, chain, docs).result == LoadedDatum(ld, fuel, chain, None, docs[k]).result
    ensures LoadedData(ld, fuel, chain, docs) == LoadedData(ld, fuel, chain, docs[..k + 1])
  {
    var before, failing, after := docs[..k], docs[k], docs[k + 1..];
    assert docs == before + [failing] + after;
    assert docs[..k + 1] == before + [failing];
    LoadedDataOk(ld, fuel, chain, before);
    LoadedDataAppend(ld, fuel, chain, before + [failing], after);
    LoadedDataAppend(ld, fuel, chain, before, [failing]);
    assert LoadedData(ld, fuel, chain, [failing]) == LoadedDatum(ld, fuel, chain, None, failing) by {
      assert [failing][1..] == [];
      ThenNothingRight(LoadedDatum(ld, fuel, chain, None, failing));
    }
  }

  // ---------------------------------------------------------------------
  // Fuel is only a bound: more of it changes nothing once a load finishes

  lemma {:induction false} FuelMonotoneUrls(ld: Loader, f: nat, g: nat, chain: seq<Url>, urls: seq<Url>)
    requires f <= g && LoadedUrls(ld, f, chain, urls).result != Err(OutOfFuel)
    ensures LoadedUrls(ld, g, chain, urls) == LoadedUrls(ld, f, chain, urls)
    decreases f, 1, |urls|
  {
    if urls != [] {
      FuelMonotoneUrl(ld, f, g, chain, urls[0]);
      if LoadedUrl(ld, f, chain, urls[0]).result.Ok? {
        FuelMonotoneUrls(ld, f, g, chain, urls[1..]);
      }
    }
  }

  lemma {:induction false} FuelMonotoneUrl(ld: Loader, f: nat, g: nat, chain: seq<Url>, url: Url)
    requires f <= g && LoadedUrl(ld, f, chain, url).result != Err(OutOfFuel)
    ensures LoadedUrl(ld, g, chain, url) == LoadedUrl(ld, f, chain, url)
    decreases f, 0, 0
  {
    if Open(ld, url).Ok? {
      FuelMonotoneDatum(ld, f - 1, g - 1, chain, Some(url), Open(ld, url).value);
    }
  }

  lemma {:induction false} FuelMonotoneDatum(ld: Loader, f: nat, g: nat, chain: seq<Url>, url: Option<Url>, doc: Document)
    requires f <= g && LoadedDatum(ld, f, chain, url, doc).result != Err(OutOfFuel)
    ensures LoadedDatum(ld, g, chain, url, doc) == LoadedDatum(ld, f, chain, url, doc)
    decreases f, 2, 0
  {
    if !doc.empty && !(url.Some? && url.value in chain) {
      var children := ld.toUrls(url, doc.includes);
      if children.Ok? {
        FuelMonotoneUrls(ld, f, g, Extend(chain, url), children.value);
      }
    }
  }

  lemma {:induction false} FuelMonotoneData(ld: Loader, f: nat, g: nat, chain: seq<Url>, docs: seq<Document>)
    requires f <= g && LoadedData(ld, f, chain, docs).result != Err(OutOfFuel)
    ensures LoadedData(ld, g, chain, docs) == LoadedData(ld, f, chain, docs)
    decreases |docs|
  {
    if docs != [] {
      FuelMonotoneDatum(ld, f, g, chain, None, docs[0]);
      if LoadedDatum(ld, f, chain, None, docs[0]).result.Ok? {
        FuelMonotoneData(ld, f, g, chain, docs[1..]);
      }
    }
  }

  // ---------------------------------------------------------------------
  // The ancestor chain, and why the recursion ends

  ghost predicate NoDuplicates(s: seq<Url>) {
    forall i, j :: 0 <= i < j < |s| ==> s[i] != s[j]
  }

  /** The chain handed to the includes stays free of duplicates: the URL is
      only appended after the cycle check let it through. */
  lemma ExtendKeepsNoDuplicates(chain: seq<Url>, url: Option<Url>)
    requires NoDuplicates(chain) && !(url.Some? && url.value in chain)
    ensures NoDuplicates(Extend(chain, url))
  {
  }

  /** The URLs a URL's document includes, when it loads, is not empty and
      its includes resolve; none otherwise. */
  function Children(ld: Loader, u: Url): seq<Url>
  {
    match Open(ld, u)
    case Err(_) => []
    case Ok(doc) =>
      if doc.empty then []
      else match ld.toUrls(Some(u), doc.includes)
        case Err(_) => []
        case Ok(children) => children
  }

  /** A set of URLs that contains everything its members include. */
  ghost predicate Closed(ld: Loader, universe: set<Url>) {
    forall u, c :: u in universe && c in Children(ld, u) ==> c in universe
  }

  ghost predicate Within(urls: seq<Url>, universe: set<Url>) {
    forall u :: u in urls ==> u in universe
  }

  lemma {:induction false} DistinctCount(s: seq<Url>)
    requires NoDuplicates(s)
    ensures |set u | u in s| == |s|
    decreases |s|
  {
    if s != [] {
      var last := s[|s| - 1];
      var init := s[..|s| - 1];
      assert NoDuplicates(init);
      DistinctCount(init);
      assert (set u | u in s) == (set u | u in init) + {last};
      assert last !in (set u | u in init);
    }
  }

  /** A duplicate-free chain inside the universe that misses one of its URLs
      is shorter than the universe. */
  lemma ChainShorter(chain: seq<Url>, universe: set<Url>, u: Url)
    requires NoDuplicates(chain) && Within(chain, universe)
    requires u in universe && u !in chain
    ensures |chain| < |universe|
  {
    DistinctCount(chain);
    var seen := (set c | c in chain) + {u};
    assert seen <= universe;
    assert |seen| == |chain| + 1;
    assert universe == seen + (universe - seen);
    assert |universe| == |seen| + |universe - seen|;
  }

  lemma ChainAtMostUniverse(chain: seq<Url>, universe: set<Url>)
    requires NoDuplicates(chain) && Within(chain, universe)
    ensures |chain| <= |universe|
  {
    DistinctCount(chain);
    var seen := set c | c in chain;
    assert universe == seen + (universe - seen);
    assert |universe| == |seen| + |universe - seen|;
  }

  /** When every URL the load can reach lies in a finite closed set, fuel
      exceeding the number of URLs not yet on the chain never runs out: the
      cycle check alone ends the recursion, as it does in Go. */
  lemma {:induction false} EnoughFuelUrls(ld: Loader, universe: set<Url>, fuel: nat, chain: seq<Url>, urls: seq<Url>)
    requires Closed(ld, universe) && NoDuplicates(chain) && Within(chain, universe) && Within(urls, universe)
    requires fuel > |universe| - |chain|
    ensures LoadedUrls(ld, fuel, chain, urls).result != Err(OutOfFuel)
    decreases fuel, 1, |urls|
  {
    if urls != [] {
      EnoughFuelUrl(ld, universe, fuel, chain, urls[0]);
      if LoadedUrl(ld, fuel, chain, urls[0]).result.Ok? {
        assert Within(urls[1..], universe) by {
          forall u | u in urls[1..] ensures u in universe { assert u in urls; }
        }
        EnoughFuelUrls(ld, universe, fuel, chain, urls[1..]);
      }
    }
  }

  lemma {:induction false} EnoughFuelUrl(ld: Loader, universe: set<Url>, fuel: nat, chain: seq<Url>, url: Url)
    requires Closed(ld, universe) && NoDuplicates(chain) && Within(chain, universe) && url in universe
    requires fuel > |universe| - |chain|
    ensures LoadedUrl(ld, fuel, chain, url).result != Err(OutOfFuel)
    decreases fuel, 0, 0
  {
    ChainAtMostUniverse(chain, universe);
    var loaded := Open(ld, url);
    if loaded.Ok? && !loaded.value.empty && url !in chain {
      var children := ld.toUrls(Some(url), loaded.value.includes);
      if children.Ok? {
        assert Children(ld, url) == children.value;
        assert Within(children.value, universe);
        ChainShorter(chain, universe, url);
        var next := chain + [url];
        assert NoDuplicates(next);
        assert Within(next, universe);
        EnoughFuelUrls(ld, universe, fuel - 1, next, children.value);
      }
    }
  }

  /** What a document supplied without a URL includes lies in the universe. */
  ghost predicate RootChildrenWithin(ld: Loader, d: Document, universe: set<Url>) {
    var children := ld.toUrls(None, d.includes);
    !d.empty && children.Ok? ==> Within(children.value, universe)
  }

  /** The same for documents supplied without a URL, whose includes are
      resolved against the working directory. */
  lemma {:induction false} EnoughFuelData(ld: Loader, universe: set<Url>, fuel: nat, chain: seq<Url>, docs: seq<Document>)
    requires Closed(ld, universe) && NoDuplicates(chain) && Within(chain, universe)
    requires forall d :: d in docs ==> RootChildrenWithin(ld, d, universe)
    requires fuel > |universe| - |chain|
    ensures LoadedData(ld, fuel, chain, docs).result != Err(OutOfFuel)
    decreases |docs|
  {
    if docs != [] {
      var d := docs[0];
      var children := ld.toUrls(None, d.includes);
      if !d.empty && children.Ok? {
        assert RootChildrenWithin(ld, d, universe);
        EnoughFuelUrls(ld, universe, fuel, chain, children.value);
      }
      if LoadedDatum(ld, fuel, chain, None, d).result.Ok? {
        EnoughFuelData(ld, universe, fuel, chain, docs[1..]);
      }
    }
  }

  // ---------------------------------------------------------------------
  // Cycles through includes

  /** `from` loads to a non-empty document whose include at position k
      resolves to `to`, and the includes before it load, with `fuel`, under
      the chain extended by `from`. */
  ghost predicate IncludedAt(ld: Loader, fuel: nat, chain: seq<Url>, from: Url, to: Url, k: nat) {
    var doc := Open(ld, from);
    doc.Ok? && !doc.value.empty &&
    var children := ld.toUrls(Some(from), doc.value.includes);
    children.Ok? && k < |children.value| && children.value[k] == to &&
    forall j :: 0 <= j < k ==> LoadedUrl(ld, fuel, chain + [from], children.value[j]).result.Ok?
  }

  /** When an include fails and the includes before it load, the including
      URL fails with the same failure. */
  lemma IncludeFails(ld: Loader, fuel: nat, chain: seq<Url>, u: Url, to: Url, k: nat, f: Failure)
    requires fuel >= 1 && u !in chain && IncludedAt(ld, fuel - 1, chain, u, to, k)
    requires LoadedUrl(ld, fuel - 1, chain + [u], to).result == Err(f)
    ensures LoadedUrl(ld, fuel, chain, u).result == Err(f)
  {
    var doc := Open(ld, u).value;
    var children := ld.toUrls(Some(u), doc.includes).value;
    FailFast(ld, fuel - 1, chain + [u], children, k);
    assert LoadedUrls(ld, fuel - 1, chain + [u], children).result == Err(f);
  }

  /** A URL already on the chain whose document is not empty is refused. */
  lemma UrlOnChainRefused(ld: Loader, fuel: nat, chain: seq<Url>, u: Url)
    requires u in chain && Open(ld, u).Ok? && !Open(ld, u).value.empty && fuel >= 1
    ensures LoadedUrl(ld, fuel, chain, u).result == Err(Because(RecursiveUrl(u)))
  {
    CycleRefused(ld, fuel - 1, chain, u, Open(ld, u).value);
  }

  /** Each URL on a path includes the next, at position at[i], with the
      includes before it loading under the chain extended by the path so far. */
  ghost predicate IncludePath(ld: Loader, fuel: nat, chain: seq<Url>, path: seq<Url>, at: seq<nat>)
    requires |at| == |path| - 1 && fuel >= |path|
  {
    forall i :: 0 <= i < |path| - 1 ==> IncludedAt(ld, fuel - i - 1, chain + path[..i], path[i], path[i + 1], at[i])
  }

  /** An include path seen from its second URL, with the first moved onto the
      chain and one unit of fuel spent. */
  lemma IncludePathTail(ld: Loader, fuel: nat, chain: seq<Url>, path: seq<Url>, at: seq<nat>)
    requires |path| >= 2 && |at| == |path| - 1 && fuel >= |path|
    requires IncludePath(ld, fuel, chain, path, at)
    ensures IncludedAt(ld, fuel - 1, chain, path[0], path[1], at[0])
    ensures IncludePath(ld, fuel - 1, chain + [path[0]], path[1..], at[1..])
  {
    assert IncludedAt(ld, fuel - 1, chain + path[..0], path[0], path[1], at[0]);
    assert chain + path[..0] == chain;
    var u, rest := path[0], path[1..];
    forall i | 0 <= i < |rest| - 1
      ensures IncludedAt(ld, fuel - 1 - i - 1, (chain + [u]) + rest[..i], rest[i], rest[i + 1], at[1..][i])
    {
      assert IncludedAt(ld, fuel - (i + 1) - 1, chain + path[..i + 1], path[i + 1], path[i + 2], at[i + 1]);
      assert chain + path[..i + 1] == (chain + [u]) + rest[..i];
    }
  }

  /** The conditions on the chain and the path, seen from the path's second
      URL with the first moved onto the chain. */
  lemma ChainPathTail(chain: seq<Url>, path: seq<Url>)
    requires |path| >= 2
    requires path[|path| - 1] in chain + path[..|path| - 1]
    requires forall i :: 0 <= i < |path| - 1 ==> path[i] !in chain
    requires forall i, j :: 0 <= i < j < |path| - 1 ==> path[i] != path[j]
    ensures var rest := path[1..];
            && rest[|rest| - 1] in (chain + [path[0]]) + rest[..|rest| - 1]
            && (forall i :: 0 <= i < |rest| - 1 ==> rest[i] !in chain + [path[0]])
            && (forall i, j :: 0 <= i < j < |rest| - 1 ==> rest[i] != rest[j])
  {
    var u, rest := path[0], path[1..];
    assert forall i :: 0 <= i < |rest| ==> rest[i] == path[i + 1];
    assert chain + path[..|path| - 1] == (chain + [u]) + rest[..|rest| - 1];
  }

  /** Following includes from path[0] (path[i + 1] is the include at
      position at[i] of path[i], and the includes before it load) through
      distinct URLs not on the chain, to a non-empty document whose URL is on
      the chain or earlier on the path: the load of path[0] fails with
      errRecursiveURL naming that URL. */
  lemma {:induction false} CycleAlongIncludes(ld: Loader, fuel: nat, chain: seq<Url>, path: seq<Url>, at: seq<nat>)
    requires |path| >= 1 && |at| == |path| - 1 && fuel >= |path|
    requires IncludePath(ld, fuel, chain, path, at)
    requires Open(ld, path[|path| - 1]).Ok? && !Open(ld, path[|path| - 1]).value.empty
    requires path[|path| - 1] in chain + path[..|path| - 1]
    requires forall i :: 0 <= i < |path| - 1 ==> path[i] !in chain
    requires forall i, j :: 0 <= i < j < |path| - 1 ==> path[i] != path[j]
    ensures LoadedUrl(ld, fuel, chain, path[0]).result == Err(Because(RecursiveUrl(path[|path| - 1])))
    decreases |path|
  {
    if |path| == 1 {
      UrlOnChainRefused(ld, fuel, chain, path[0]);
    } else {
      var u, rest := path[0], path[1..];
      ChainPathTail(chain, path);
      IncludePathTail(ld, fuel, chain, path, at);
      CycleAlongIncludes(ld, fuel - 1, chain + [u], rest, at[1..]);
      IncludeFails(ld, fuel, chain, u, rest[0], at[0], Because(RecursiveUrl(path[|path| - 1])));
    }
  }

  /** A includes B includes C includes A, each through any of its includes
      whose earlier siblings load: the load of A fails with errRecursiveURL
      naming A. */
  lemma CycleThroughIncludes(ld: Loader, fuel: nat, path: seq<Url>, at: seq<nat>)
    requires |path| >= 2 && path[|path| - 1] == path[0] && |at| == |path| - 1 && fuel >= |path|
    requires IncludePath(ld, fuel, [], path, at)
    requires forall i, j :: 0 <= i < j < |path| - 1 ==> path[i] != path[j]
    ensures LoadedUrls(ld, fuel, [], [path[0]]).result == Err(Because(RecursiveUrl(path[0])))
  {
    assert IncludedAt(ld, fuel - 1, [] + path[..0], path[0], path[1], at[0]);
    assert path[0] in [] + path[..|path| - 1];
    CycleAlongIncludes(ld, fuel, [], path, at);
    LoadedUrlsSingle(ld, fuel, [], path[0]);
  }

  /** The first include needs no condition on its siblings: a cycle through
      first includes is always refused. */
  lemma FirstIncludeCycle(ld: Loader, fuel: nat, path: seq<Url>)
    requires |path| >= 2 && path[|path| - 1] == path[0] && fuel >= |path|
    requires forall i :: 0 <= i < |path| - 1 ==> IncludedAt(ld, 0, [], path[i], path[i + 1], 0)
    requires forall i, j :: 0 <= i < j < |path| - 1 ==> path[i] != path[j]
    ensures LoadedUrls(ld, fuel, [], [path[0]]).result == Err(Because(RecursiveUrl(path[0])))
  {
    var at := seq(|path| - 1, _ => 0);
    forall i | 0 <= i < |path| - 1
      ensures IncludedAt(ld, fuel - i - 1, [] + path[..i], path[i], path[i + 1], at[i])
    {
      assert IncludedAt(ld, 0, [], path[i], path[i + 1], 0);
    }
    CycleThroughIncludes(ld, fuel, path, at);
  }

  // ---------------------------------------------------------------------
  // Order of the output

  /** How a URL's document resolves its includes. */
  ghost predicate Includes(ld: Loader, u: Url, doc: Document, children: seq<Url>) {
    Open(ld, u) == Ok(doc) && !doc.empty && ld.toUrls(Some(u), doc.includes) == Ok(children)
  }

  /** A URL whose includes load to `docs` loads to `docs` followed by its own
      document, having fetched itself first. */
  lemma NodeLoads(ld: Loader, fuel: nat, chain: seq<Url>, u: Url, doc: Document, children: seq<Url>,
                  docs: seq<Document>, fetched: seq<Url>)
    requires Includes(ld, u, doc, children) && u !in chain && fuel >= 1
    requires LoadedUrls(ld, fuel - 1, chain + [u], children) == Run(Ok(docs), fetched)
    ensures LoadedUrl(ld, fuel, chain, u) == Run(Ok(docs + [doc]), [u] + fetched)
  {
    assert LoadedDatum(ld, fuel - 1, chain, Some(u), doc) == Run(Ok(docs + [doc]), fetched);
  }

  /** A list of one URL loads as that URL. */
  lemma LoadedUrlsSingle(ld: Loader, fuel: nat, chain: seq<Url>, u: Url)
    ensures LoadedUrls(ld, fuel, chain, [u]) == LoadedUrl(ld, fuel, chain, u)
  {
    ThenNothingRight(LoadedUrl(ld, fuel, chain, u));
  }

  /** Two sibling URLs that both load. */
  lemma LoadedUrlsPair(ld: Loader, fuel: nat, chain: seq<Url>, a: Url, b: Url,
                       da: seq<Document>, fa: seq<Url>, db: seq<Document>, fb: seq<Url>)
    requires LoadedUrl(ld, fuel, chain, a) == Run(Ok(da), fa)
    requires LoadedUrl(ld, fuel, chain, b) == Run(Ok(db), fb)
    ensures LoadedUrls(ld, fuel, chain, [a, b]) == Run(Ok(da + db), fa + fb)
  {
    assert [a, b] == [a] + [b];
    LoadedUrlsAppend(ld, fuel, chain, [a], [b]);
    LoadedUrlsSingle(ld, fuel, chain, a);
    LoadedUrlsSingle(ld, fuel, chain, b);
  }

  /** Post-order: R includes [X, Y] and X includes [Z] loads as [Z, X, Y, R],
      fetching R, X, Z, Y in that order. */
  lemma PostOrderExample(ld: Loader, fuel: nat, r: Url, x: Url, y: Url, z: Url,
                         dr: Document, dx: Document, dy: Document, dz: Document)
    requires r != x && r != y && r != z && x != y && x != z
    requires Includes(ld, r, dr, [x, y]) && Includes(ld, x, dx, [z])
    requires Includes(ld, y, dy, []) && Includes(ld, z, dz, [])
    requires fuel >= 3
    ensures LoadedUrls(ld, fuel, [], [r]) == Run(Ok([dz, dx, dy, dr]), [r, x, z, y])
  {
    var f := fuel;
    assert [r] + [x] == [r, x] && [] + [r] == [r];
    assert [] + [dz] == [dz] && [z] + [] == [z] && [] + [dy] == [dy] && [y] + [] == [y];
    assert [dz] + [dx] == [dz, dx] && [x] + [z] == [x, z];
    assert [dz, dx] + [dy] == [dz, dx, dy] && [x, z] + [y] == [x, z, y];
    assert [dz, dx, dy] + [dr] == [dz, dx, dy, dr] && [r] + [x, z, y] == [r, x, z, y];
    NodeLoads(ld, f - 2, [r, x], z, dz, [], [], []);
    LoadedUrlsSingle(ld, f - 2, [r, x], z);
    NodeLoads(ld, f - 1, [r], x, dx, [z], [dz], [z]);
    NodeLoads(ld, f - 1, [r], y, dy, [], [], []);
    LoadedUrlsPair(ld, f - 1, [r], x, y, [dz, dx], [x, z], [dy], [y]);
    NodeLoads(ld, f, [], r, dr, [x, y], [dz, dx, dy], [x, z, y]);
    LoadedUrlsSingle(ld, f, [], r);
  }

  /** No false cycles: when A and B both include L, L is loaded under each of
      them and appears once per path, [L, A, L, B, R]; siblings do not share
      an ancestor chain. */
  lemma DiamondExample(ld: Loader, fuel: nat, r: Url, a: Url, b: Url, l: Url,
                       dr: Document, da: Document, db: Document, dl: Document)
    requires r != a && r != b && r != l && a != b && a != l && b != l
    requires Includes(ld, r, dr, [a, b]) && Includes(ld, a, da, [l]) && Includes(ld, b, db, [l])
    requires Includes(ld, l, dl, [])
    requires fuel >= 3
    ensures LoadedUrls(ld, fuel, [], [r]) == Run(Ok([dl, da, dl, db, dr]), [r, a, l, b, l])
  {
    var f := fuel;
    assert [r] + [a] == [r, a] && [r] + [b] == [r, b] && [] + [r] == [r];
    assert [] + [dl] == [dl] && [l] + [] == [l];
    assert [dl] + [da] == [dl, da] && [a] + [l] == [a, l] && [dl] + [db] == [dl, db] && [b] + [l] == [b, l];
    assert [dl, da] + [dl, db] == [dl, da, dl, db] && [a, l] + [b, l] == [a, l, b, l];
    assert [dl, da, dl, db] + [dr] == [dl, da, dl, db, dr] && [r] + [a, l, b, l] == [r, a, l, b, l];
    NodeLoads(ld, f - 2, [r, a], l, dl, [], [], []);
    NodeLoads(ld, f - 2, [r, b], l, dl, [], [], []);
    LoadedUrlsSingle(ld, f - 2, [r, a], l);
    LoadedUrlsSingle(ld, f - 2, [r, b], l);
    NodeLoads(ld, f - 1, [r], a, da, [l], [dl], [l]);
    NodeLoads(ld, f - 1, [r], b, db, [l], [dl], [l]);
    LoadedUrlsPair(ld, f - 1, [r], a, b, [dl, da], [a, l], [dl, db], [b, l]);
    NodeLoads(ld, f, [], r, dr, [a, b], [dl, da, dl, db], [a, l, b, l]);
    LoadedUrlsSingle(ld, f, [], r);
  }
}
