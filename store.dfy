/** The persistence store with the three handlers that change it.  The store
    keeps its records in `records`; each handler looks records up, takes one
    branch and then saves one record in place or creates one, as the
    controller does.  The two read-only handlers are the functions
    `Registry.GetAnalytics` and `Registry.GetPreview` of `records`. */
module UrlStore {
  import opened Records
  import opened Patterns
  import opened Registry
  import Properties

  class Store {
    /** The stored documents, in the order `findOne` scans them. */
    var records: seq<UrlRecord>

    ghost predicate Valid()
      reads this
    {
      Consistent(records)
    }

    constructor ()
      ensures Valid() && records == []
    {
      records := [];
    }

    /** `generateNewShortURL`; `freshId` is the value `nanoid(8)` returns. */
    method GenerateNewShortUrl(url: Option<string>, freshId: string) returns (r: Result<ShortReply>)
      requires Valid() && FreshShortId(records, freshId)
      modifies this
      ensures Valid() && Evolves(old(records), records)
      ensures Step(r, records) == ShortenUrl(old(records), url, freshId)
    {
      Properties.ShortenPreservesConsistent(records, url, freshId);
      if !Truthy(url) {
        return Err(Validation(UrlRequired));
      }
      var existing := FindOne(records, ByUrl(url.value));
      if existing.Some? {
        var i := existing.value;
        if !Truthy(records[i].shortId) {
          records := records[i := records[i].(shortId := Some(freshId))];
          return Ok(ShortReply(freshId, OrNull(records[i].alias), Generated));
        }
        return Ok(ShortReply(records[i].shortId.value, OrNull(records[i].alias), AlreadyExists));
      }
      records := records + [UrlRecord(Some(freshId), None, url.value, [])];
      return Ok(ShortReply(freshId, None, NewlyCreated));
    }

    /** `generateNewCustomURL`. */
    method GenerateNewCustomUrl(url: Option<string>, alias: Option<string>) returns (r: Result<CustomReply>)
      requires Valid()
      modifies this
      ensures Valid() && Evolves(old(records), records)
      ensures Step(r, records) == CustomizeUrl(old(records), url, alias)
    {
      Properties.CustomizePreservesConsistent(records, url, alias);
      if !Truthy(url) {
        return Err(Validation(UrlRequired));
      }
      if !Truthy(alias) {
        return Err(Validation(AliasRequired));
      }
      if !AliasRegexTest(alias.value) {
        return Err(Validation(AliasMalformed));
      }
      var holder := FindOne(records, ByAlias(alias.value));
      if holder.Some? && records[holder.value].redirectURL != url.value {
        return Err(Conflict(AliasTakenForOtherUrl));
      }
      var existing := FindOne(records, ByUrl(url.value));
      if existing.Some? {
        var i := existing.value;
        if Truthy(records[i].alias) && records[i].alias.value != alias.value {
          return Err(Conflict(UrlHasOtherAlias));
        }
        if !Truthy(records[i].alias) {
          records := records[i := records[i].(alias := alias)];
          return Ok(CustomReply(records[i].alias.value, Attached));
        }
        return Ok(CustomReply(records[i].alias.value, Unchanged));
      }
      records := records + [UrlRecord(None, alias, url.value, [])];
      return Ok(CustomReply(alias.value, Created));
    }

    /** `redirectToURL`; `now` is the value `Date.now()` returns. */
    method RedirectToUrl(id: string, now: int) returns (r: Result<Target>)
      requires Valid()
      modifies this
      ensures Valid() && Evolves(old(records), records)
      ensures Step(r, records) == RedirectTo(old(records), id, now)
    {
      Properties.RedirectPreservesConsistent(records, id, now);
      if '+' in id {
        return Ok(PreviewPage(StripPlus(id)));
      }
      var entry := FindOne(records, ById(id));
      if entry.None? {
        return Err(NotFound);
      }
      var i := entry.value;
      var target := records[i].redirectURL;
      records := records[i := records[i].(visitHistory := records[i].visitHistory + [now])];
      return Ok(Destination(target));
    }
  }
}
