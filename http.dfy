/**
 * The outcome of `requests.get(url)` followed by `raise_for_status()`, as
 * both `open_url` methods see it. The network itself is not modelled: the
 * page a fetch returns is a parameter.
 */
module Http {

  /** Both scrapers' page addresses end in ".html". */
  const PageSuffix := ".html"

  /** The transport failures `requests` reports; both scrapers catch every
      one of them. */
  datatype TransportFailure = ConnectionFailure | Timeout | OtherRequestError

  datatype Fetch<P> = TransportError(failure: TransportFailure) | Response(status: int, page: P)

  /** `raise_for_status()` raises for the 4xx and 5xx status codes. */
  predicate IsHttpError(status: int) {
    400 <= status < 600
  }

  /** The fetch got past `raise_for_status()`. */
  predicate Fetched<P>(f: Fetch<P>) {
    f.Response? && !IsHttpError(f.status)
  }
}
