/** The loader's recursion as Go writes it: loops that append to a local
    slice and return at the first error, and the recursion between them.
    Each method computes exactly what the function of the same name in
    IncludeGraph specifies, so every property proved there holds of the
    methods. The `fetched` out-parameters are ghost: they record the URLs
    handed to loadURL, in order. */
module Traversal {
  import opened Results
  import opened Urls
  import opened Errors
  import opened Locators
  import opened IncludeGraph

  /** loadURLsRecursive: load each URL in turn, append its documents, and
      stop at the first error. */
  method LoadUrlsRecursive(ld: Loader, fuel: nat, parentUrls: seq<Url>, urls: seq<Url>)
    returns (data: Result<seq<Document>, Failure>, ghost fetched: seq<Url>)
    requires ResolvesIncludes(ld)
    ensures Run(data, fetched) == LoadedUrls(ld, fuel, parentUrls, urls)
    ensures data == LoadedUrls(ld, fuel, parentUrls, urls).result
    decreases fuel, 1
  {
    var allData: seq<Document> := [];
    ghost var log: seq<Url> := [];
    ThenNothing(LoadedUrls(ld, fuel, parentUrls, urls));
    assert urls[0..] == urls;
    for i := 0 to |urls|
      invariant LoadedUrls(ld, fuel, parentUrls, urls)
             == Then(Run(Ok(allData), log), LoadedUrls(ld, fuel, parentUrls, urls[i..]))
    {
      var childData, childFetched := LoadUrlRecursive(ld, fuel, parentUrls, urls[i]);
      LoadedUrlsFrom(ld, fuel, parentUrls, urls, i);
      ThenAssociative(Run(Ok(allData), log), LoadedUrl(ld, fuel, parentUrls, urls[i]),
                      LoadedUrls(ld, fuel, parentUrls, urls[i + 1..]));
      if childData.Err? {
        return childData, log + childFetched;
      }
      allData := allData + childData.value;
      log := log + childFetched;
    }
    assert urls[|urls|..] == [];
    ThenNothingRight(Run(Ok(allData), log));
    return Ok(allData), log;
  }

  /** loadURLRecursive: fetch the URL, make a document of the bytes, and
      load that document with the URL as its own. */
  method LoadUrlRecursive(ld: Loader, fuel: nat, parentUrls: seq<Url>, url: Url)
    returns (data: Result<seq<Document>, Failure>, ghost fetched: seq<Url>)
    requires ResolvesIncludes(ld)
    ensures Run(data, fetched) == LoadedUrl(ld, fuel, parentUrls, url)
    ensures data == LoadedUrl(ld, fuel, parentUrls, url).result
    decreases fuel, 0
  {
    if fuel == 0 {
      return Err(OutOfFuel), [];
    }
    var bytes := ld.fetch(url);
    if bytes.Err? {
      return Err(Because(bytes.error)), [url];
    }
    var fdata := ld.newFiledata(bytes.value, url);
    if fdata.Err? {
      return Err(Because(fdata.error)), [url];
    }
    var childData, childFetched := LoadDatumRecursive(ld, fuel - 1, parentUrls, Some(url), fdata.value);
    return childData, [url] + childFetched;
  }

  /** loadDataRecursive: the same loop over documents supplied without a
      URL. */
  method LoadDataRecursive(ld: Loader, fuel: nat, parentUrls: seq<Url>, docs: seq<Document>)
    returns (data: Result<seq<Document>, Failure>, ghost fetched: seq<Url>)
    requires ResolvesIncludes(ld)
    ensures Run(data, fetched) == LoadedData(ld, fuel, parentUrls, docs)
    ensures data == LoadedData(ld, fuel, parentUrls, docs).result
    decreases fuel, 3
  {
    var allData: seq<Document> := [];
    ghost var log: seq<Url> := [];
    ThenNothing(LoadedData(ld, fuel, parentUrls, docs));
    assert docs[0..] == docs;
    for i := 0 to |docs|
      invariant LoadedData(ld, fuel, parentUrls, docs)
             == Then(Run(Ok(allData), log), LoadedData(ld, fuel, parentUrls, docs[i..]))
    {
      var childData, childFetched := LoadDatumRecursive(ld, fuel, parentUrls, None, docs[i]);
      LoadedDataFrom(ld, fuel, parentUrls, docs, i);
      ThenAssociative(Run(Ok(allData), log), LoadedDatum(ld, fuel, parentUrls, None, docs[i]),
                      LoadedData(ld, fuel, parentUrls, docs[i + 1..]));
      if childData.Err? {
        return childData, log + childFetched;
      }
      allData := allData + childData.value;
      log := log + childFetched;
    }
    assert docs[|docs|..] == [];
    ThenNothingRight(Run(Ok(allData), log));
    return Ok(allData), log;
  }

  /** loadDatumRecursive: nothing for an empty document, an error for a URL
      among its ancestors, otherwise the includes resolved against the URL,
      loaded with the URL added to the ancestors, and the document last. */
  method LoadDatumRecursive(ld: Loader, fuel: nat, parentUrls: seq<Url>, url: Option<Url>, datum: Document)
    returns (data: Result<seq<Document>, Failure>, ghost fetched: seq<Url>)
    requires ResolvesIncludes(ld)
    ensures Run(data, fetched) == LoadedDatum(ld, fuel, parentUrls, url, datum)
    decreases fuel, 2
  {
    if datum.empty {
      return Ok([]), [];
    }
    var recursive := ContainsUrl(url, parentUrls);
    if recursive {
      return Err(Because(RecursiveUrl(url.value))), [];
    }
    var childUrls := ToUrls(ld.platform, url, datum.includes);
    assert ResolvesAs(ld, url, datum.includes);
    if childUrls.Err? {
      return Err(Because(childUrls.error)), [];
    }
    var newParentUrls: seq<Url> := [];
    newParentUrls := newParentUrls + parentUrls;
    if url.Some? {
      newParentUrls := newParentUrls + [url.value];
    }
    assert newParentUrls == Extend(parentUrls, url);
    var childData, childFetched := LoadUrlsRecursive(ld, fuel, newParentUrls, childUrls.value);
    if childData.Err? {
      return childData, childFetched;
    }
    var allData: seq<Document> := [];
    allData := allData + childData.value;
    allData := allData + [datum];
    assert allData == childData.value + [datum];
    return Ok(allData), childFetched;
  }

  /** wrapFiledatas: a document for each blob, made with the empty URL; the
      first error stops the loop. */
  method WrapFiledatas(ld: Loader, blobs: seq<Bytes>) returns (r: Result<seq<Document>, Error>)
    ensures r.Ok? <==> forall i :: 0 <= i < |blobs| ==> ld.newFiledata(blobs[i], EmptyUrl).Ok?
    ensures r.Ok? ==> |r.value| == |blobs| &&
                      forall i :: 0 <= i < |blobs| ==> r.value[i] == ld.newFiledata(blobs[i], EmptyUrl).value
    ensures r.Err? ==> exists k :: 0 <= k < |blobs| && ld.newFiledata(blobs[k], EmptyUrl) == Err(r.error) &&
                                   forall j :: 0 <= j < k ==> ld.newFiledata(blobs[j], EmptyUrl).Ok?
  {
    var fds: seq<Document> := [];
    for i := 0 to |blobs|
      invariant |fds| == i
      invariant forall j :: 0 <= j < i ==> ld.newFiledata(blobs[j], EmptyUrl) == Ok(fds[j])
    {
      var fd := ld.newFiledata(blobs[i], EmptyUrl);
      if fd.Err? {
        return Err(fd.error);
      }
      fds := fds + [fd.value];
    }
    return Ok(fds);
  }
}
