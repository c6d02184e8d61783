/** The kinds of error the loader can return. The Go code wraps errors with
    fmt.Errorf; the model keeps the kind and what the message names, not the
    message text. */
module Errors {
  import opened Urls

  datatype Error =
    | BlankFilePath                          // errBlankFilePath
    | CouldNotParse(cause: Error)            // "could not parse path: %w"
    | RecursiveUrl(url: Url)                 // errRecursiveURL, naming the URL
    | FailedToLoad(status: int, url: Url)    // errFailedToLoad: a non-200 response
    | Os(message: string)                    // os.Getwd or a file read
    | UrlParse(message: string)              // an error from url.Parse
    | Transport(message: string)             // the HTTP client or the storage client
    | Filedata(message: string)              // the document factory
}
