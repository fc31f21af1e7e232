/** Optional values and results with the error kinds the collector raises. */
module Outcomes {

  datatype Option<+T> = None | Some(value: T) {
    function GetOr(default: T): T {
      match this
      case Some(v) => v
      case None => default
    }
  }

  /** The exceptions the modelled code raises, one constructor per cause. */
  datatype Error =
    | UnparsableUrl      // get_netloc: neither a netloc nor a leading path segment
    | InvalidIPv6Url     // urlparse: unbalanced '[' / ']' in the netloc
    | MissingTitle       // a document without a usable <title>
    | MissingLang        // a document whose <html> element has no lang attribute
    | MissingEntryTitle  // a feed entry without a "title" key
    | UnknownState       // a report state other than censored / uncensored
    | NotABool           // set_censored given a value equal to neither True nor False

  datatype Result<+T> = Ok(value: T) | Err(error: Error)
}
