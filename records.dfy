/** The stored document shape of the `url` collection and the JavaScript
    notion of a value being "present" (truthy) that the handlers test. */
module Records {

  /** A field that may be null or missing in the stored document. */
  datatype Option<+T> = None | Some(value: T)

  /** One stored document.  `shortId` and `alias` are optional; the store keeps
      each of them unique on its own.  `visitHistory` holds one timestamp
      (milliseconds since the epoch) per recorded visit, oldest first. */
  datatype UrlRecord = UrlRecord(
    shortId: Option<string>,
    alias: Option<string>,
    redirectURL: string,
    visitHistory: seq<int>)

  /** JavaScript truthiness of a string-or-null value: null, a missing field
      and the empty string are all falsy. */
  predicate Truthy(o: Option<string>) {
    o.Some? && o.value != ""
  }

  /** `value || null`: a falsy string collapses to null. */
  function OrNull(o: Option<string>): (r: Option<string>)
  {
    if Truthy(o) then o else None
  }
}
