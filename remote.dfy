/**
 * What the catalog service's HTTP client hands back, and what the exports
 * and imports return to their caller.
 */
module Remote {
  import opened Records

  /** The `code` property of an error object: absent, an HTTP status, or a name such as 'ENOENT'. */
  datatype ErrorCode = NoCode | Status(status: int) | Named(name: string)

  datatype Error = Error(code: ErrorCode)

  /** The error `fs` raises for a file that does not exist. */
  const NoSuchFile: Error := Error(Named("ENOENT"))

  /** `err.code` read as a JavaScript condition. */
  predicate HasCode(e: Error)
  {
    match e.code
    case NoCode => false
    case Status(n) => n != 0
    case Named(s) => s != ""
  }

  /**
   * The result of `await get(url)`: an iterable listing, `null` or a
   * defined value that is not iterable, or a rejection. A `get` that
   * resolves to `undefined` is not represented.
   */
  datatype Fetch = Listing(records: seq<Record>) | NotIterable | Rejected(error: Error)

  /** The records a fetch makes the caller write: none unless it is a listing. */
  function Listed(f: Fetch): seq<Record>
  {
    if f.Listing? then f.records else []
  }

  /**
   * How an export or import ends: with the `OK` sentinel, by returning an
   * error object, or with a rejected promise.
   */
  datatype Outcome = Ok | Returned(error: Error) | Thrown(error: Error)

  /** One `patch(url, body)` call. */
  datatype Patch = Patch(url: string, body: seq<Record>)
}
