/** What the handlers of the URL controller promise, proved about the step
    functions of `Registry`: the outcome of each branch, idempotence of both
    creation paths, the read-only lookups, and the store invariant kept by
    any sequence of requests. */
module Properties {
  import opened Records
  import opened Patterns
  import opened Registry

  // ---------------------------------------------------------------------------
  // Validation

  /** A missing or empty `url` is refused by both creation handlers before the
      store is touched. */
  lemma MissingUrlRejected(db: seq<UrlRecord>, url: Option<string>, alias: Option<string>, freshId: string)
    requires !Truthy(url)
    ensures ShortenUrl(db, url, freshId) == Step(Err(Validation(UrlRequired)), db)
    ensures CustomizeUrl(db, url, alias) == Step(Err(Validation(UrlRequired)), db)
  {
  }

  /** A missing, empty or badly formed alias is refused, and nothing changes. */
  lemma InvalidAliasRejected(db: seq<UrlRecord>, url: Option<string>, alias: Option<string>)
    requires Truthy(url)
    requires !Truthy(alias) || !ValidAlias(alias.value)
    ensures CustomizeUrl(db, url, alias)
         == Step(Err(Validation(if Truthy(alias) then AliasMalformed else AliasRequired)), db)
  {
    if Truthy(alias) {
      AliasRegexMeansValidAlias(alias.value);
    }
  }

  // ---------------------------------------------------------------------------
  // Short links

  /** A destination whose record already has a short id gets that id back,
      tagged as existing, and the store is left as it was. */
  lemma ShortReturnsExistingId(db: seq<UrlRecord>, i: nat, freshId: string)
    requires Consistent(db) && i < |db|
    requires db[i].shortId.Some?
    ensures ShortenUrl(db, Some(db[i].redirectURL), freshId)
         == Step(Ok(ShortReply(db[i].shortId.value, db[i].alias, AlreadyExists)), db)
  {
    assert WellFormed(db[i]);
    var u := db[i].redirectURL;
    var found := FindOne(db, ByUrl(u));
    assert found == Some(i);
  }

  /** A record without a short id receives the fresh id; its alias,
      destination and history stay as they were, as do all other records. */
  lemma ShortAssignsFreshId(db: seq<UrlRecord>, i: nat, freshId: string)
    requires Consistent(db) && i < |db|
    requires db[i].shortId.None?
    ensures var s := ShortenUrl(db, Some(db[i].redirectURL), freshId);
      && s.result == Ok(ShortReply(freshId, db[i].alias, Generated))
      && |s.db| == |db|
      && s.db[i] == UrlRecord(Some(freshId), db[i].alias, db[i].redirectURL, db[i].visitHistory)
      && forall j :: 0 <= j < |db| && j != i ==> s.db[j] == db[j]
  {
    assert WellFormed(db[i]);
    var found := FindOne(db, ByUrl(db[i].redirectURL));
    assert found == Some(i);
  }

  /** Without a record for the destination, one is appended with the fresh
      short id, no alias and no visits. */
  lemma ShortCreatesRecord(db: seq<UrlRecord>, url: string, freshId: string)
    requires url != ""
    requires forall j :: 0 <= j < |db| ==> db[j].redirectURL != url
    ensures ShortenUrl(db, Some(url), freshId)
         == Step(Ok(ShortReply(freshId, None, NewlyCreated)), db + [UrlRecord(Some(freshId), None, url, [])])
  {
  }

  /** Asking twice for the same destination yields the same id; the second
      request is answered as existing and changes nothing. */
  lemma {:induction false} ShortIdempotent(db: seq<UrlRecord>, url: Option<string>, freshId: string, laterId: string)
    requires Truthy(url) && freshId != ""
    ensures var first := ShortenUrl(db, url, freshId);
      && first.result.Ok?
      && ShortenUrl(first.db, url, laterId)
         == Step(Ok(first.result.value.(status := AlreadyExists)), first.db)
  {
    var u := url.value;
    var first := ShortenUrl(db, url, freshId);
    match FindOne(db, ByUrl(u))
    case Some(i) =>
      assert FindOne(first.db, ByUrl(u)) == Some(i) by {
        assert forall j :: 0 <= j < |db| ==> first.db[j].redirectURL == db[j].redirectURL;
      }
    case None =>
      assert FindOne(first.db, ByUrl(u)) == Some(|db|) by {
        assert forall j :: 0 <= j < |db| ==> first.db[j] == db[j];
        assert Matches(first.db[|db|], ByUrl(u));
      }
  }

  // ---------------------------------------------------------------------------
  // Custom aliases

  /** Every successful custom request answers with the requested alias. */
  lemma CustomAnswersAlias(db: seq<UrlRecord>, url: Option<string>, alias: Option<string>)
    ensures var s := CustomizeUrl(db, url, alias);
      s.result.Ok? ==> alias.Some? && s.result.value.id == alias.value
  {
  }

  /** An alias held by a record of a different destination is a conflict, and
      the store is unchanged. */
  lemma AliasTakenConflict(db: seq<UrlRecord>, url: string, alias: string, j: nat)
    requires Consistent(db) && url != "" && ValidAlias(alias)
    requires j < |db| && db[j].alias == Some(alias) && db[j].redirectURL != url
    ensures CustomizeUrl(db, Some(url), Some(alias)) == Step(Err(Conflict(AliasTakenForOtherUrl)), db)
  {
    AliasRegexMeansValidAlias(alias);
    var holder := FindOne(db, ByAlias(alias));
    assert holder == Some(j);
  }

  /** A destination whose record carries a different alias cannot get a second
      one: the request is a conflict and the store is unchanged.  (When another
      record already holds the requested alias, that rule is reported first.) */
  lemma OtherAliasConflict(db: seq<UrlRecord>, i: nat, alias: string)
    requires Consistent(db) && i < |db| && ValidAlias(alias)
    requires db[i].alias.Some? && db[i].alias != Some(alias)
    ensures var s := CustomizeUrl(db, Some(db[i].redirectURL), Some(alias));
      && s.db == db
      && s.result == Err(Conflict(
           if exists j :: 0 <= j < |db| && db[j].alias == Some(alias)
           then AliasTakenForOtherUrl else UrlHasOtherAlias))
  {
    AliasRegexMeansValidAlias(alias);
    assert WellFormed(db[i]);
    assert FindOne(db, ByUrl(db[i].redirectURL)) == Some(i);
    if exists j :: 0 <= j < |db| && db[j].alias == Some(alias) {
      var j :| 0 <= j < |db| && db[j].alias == Some(alias);
      assert j != i;
    }
  }

  /** A record without an alias receives the requested one, unless another
      destination's record holds it; nothing else about it changes. */
  lemma AliasAttached(db: seq<UrlRecord>, i: nat, alias: string)
    requires Consistent(db) && i < |db| && ValidAlias(alias)
    requires db[i].alias.None?
    ensures var s := CustomizeUrl(db, Some(db[i].redirectURL), Some(alias));
      if exists j :: 0 <= j < |db| && db[j].alias == Some(alias) then
        s == Step(Err(Conflict(AliasTakenForOtherUrl)), db)
      else
        && s.result == Ok(CustomReply(alias, Attached))
        && |s.db| == |db|
        && s.db[i] == UrlRecord(db[i].shortId, Some(alias), db[i].redirectURL, db[i].visitHistory)
        && forall j :: 0 <= j < |db| && j != i ==> s.db[j] == db[j]
  {
    AliasRegexMeansValidAlias(alias);
    assert WellFormed(db[i]);
    assert FindOne(db, ByUrl(db[i].redirectURL)) == Some(i);
    if exists j :: 0 <= j < |db| && db[j].alias == Some(alias) {
      var j :| 0 <= j < |db| && db[j].alias == Some(alias);
      assert j != i;
    }
  }

  /** Asking again for the alias a destination already has answers with it and
      changes nothing. */
  lemma AliasAlreadyHeld(db: seq<UrlRecord>, i: nat)
    requires Consistent(db) && i < |db| && db[i].alias.Some?
    ensures CustomizeUrl(db, Some(db[i].redirectURL), db[i].alias)
         == Step(Ok(CustomReply(db[i].alias.value, Unchanged)), db)
  {
    assert WellFormed(db[i]);
    AliasRegexMeansValidAlias(db[i].alias.value);
    assert FindOne(db, ByAlias(db[i].alias.value)) == Some(i);
    assert FindOne(db, ByUrl(db[i].redirectURL)) == Some(i);
  }

  /** A new record is created exactly when the request is well formed, no
      record has the destination and no record holds the alias; it has no
      short id, the requested alias and no visits. */
  lemma CustomCreatesOnlyForNewUrl(db: seq<UrlRecord>, url: Option<string>, alias: Option<string>)
    ensures var s := CustomizeUrl(db, url, alias);
      (s.result.Ok? && s.result.value.status == Created)
      <==> (&& Truthy(url) && Truthy(alias) && AliasRegexTest(alias.value)
            && (forall j :: 0 <= j < |db| ==> !Matches(db[j], ByUrl(url.value)))
            && (forall j :: 0 <= j < |db| ==> !Matches(db[j], ByAlias(alias.value))))
    ensures var s := CustomizeUrl(db, url, alias);
      s.db == db || (s.result.Ok? && s.result.value.status != Unchanged)
    ensures var s := CustomizeUrl(db, url, alias);
      s.result.Ok? && s.result.value.status == Created
      ==> s.db == db + [UrlRecord(None, alias, url.value, [])]
  {
    var s := CustomizeUrl(db, url, alias);
    if Truthy(url) && Truthy(alias) && AliasRegexTest(alias.value) {
      var holder := FindOne(db, ByAlias(alias.value));
      if holder.Some? && FindOne(db, ByUrl(url.value)).None? {
        assert !Matches(db[holder.value], ByUrl(url.value));
      }
    }
  }

  /** Repeating a successful custom request answers with the same alias,
      reports it as already held, and changes nothing. */
  lemma CustomIdempotent(db: seq<UrlRecord>, url: Option<string>, alias: Option<string>)
    requires Consistent(db)
    requires CustomizeUrl(db, url, alias).result.Ok?
    ensures var first := CustomizeUrl(db, url, alias);
      CustomizeUrl(first.db, url, alias) == Step(Ok(CustomReply(alias.value, Unchanged)), first.db)
  {
    var first := CustomizeUrl(db, url, alias);
    CustomizePreservesConsistent(db, url, alias);
    var u := url.value;
    match FindOne(db, ByUrl(u))
    case Some(i) =>
      assert first.db[i].redirectURL == u && first.db[i].alias == alias;
      AliasAlreadyHeld(first.db, i);
    case None =>
      var k := |db|;
      assert first.db[k].redirectURL == u && first.db[k].alias == alias;
      AliasAlreadyHeld(first.db, k);
  }

  // ---------------------------------------------------------------------------
  // Redirects

  /** An identifier with a `+` is sent to the preview page of the identifier
      without its `+` characters, whatever the store holds, and the store is
      left as it was. */
  lemma PlusGoesToPreview(db: seq<UrlRecord>, id: string, now: int)
    requires '+' in id
    ensures RedirectTo(db, id, now) == Step(Ok(PreviewPage(StripPlus(id))), db)
  {
  }

  /** Otherwise the first record whose short id or alias is the identifier gets
      exactly one visit, stamped `now`, at the end of its history; the visitor
      goes to its destination and no other record changes. */
  lemma RedirectRecordsOneVisit(db: seq<UrlRecord>, id: string, now: int, i: nat)
    requires '+' !in id && i < |db|
    requires Matches(db[i], ById(id))
    requires forall j :: 0 <= j < i ==> !Matches(db[j], ById(id))
    ensures var s := RedirectTo(db, id, now);
      && s.result == Ok(Destination(db[i].redirectURL))
      && |s.db| == |db|
      && s.db[i] == UrlRecord(db[i].shortId, db[i].alias, db[i].redirectURL, db[i].visitHistory + [now])
      && forall j :: 0 <= j < |db| && j != i ==> s.db[j] == db[j]
  {
    assert FindOne(db, ById(id)) == Some(i);
  }

  /** An identifier no record carries is not found, and nothing changes. */
  lemma RedirectNotFound(db: seq<UrlRecord>, id: string, now: int)
    requires '+' !in id
    requires forall j :: 0 <= j < |db| ==> !Matches(db[j], ById(id))
    ensures RedirectTo(db, id, now) == Step(Err(NotFound), db)
  {
  }

  /** Every short id and alias the store hands out leads to a destination
      (neither contains a `+`, so none is diverted to the preview page). */
  lemma StoredIdentifiersRedirect(db: seq<UrlRecord>, i: nat, now: int)
    requires Consistent(db) && i < |db|
    ensures db[i].shortId.Some? ==> RedirectTo(db, db[i].shortId.value, now).result.Ok?
                                    && RedirectTo(db, db[i].shortId.value, now).result.value.Destination?
    ensures db[i].alias.Some? ==> RedirectTo(db, db[i].alias.value, now).result.Ok?
                                  && RedirectTo(db, db[i].alias.value, now).result.value.Destination?
  {
    assert WellFormed(db[i]);
    if db[i].shortId.Some? {
      var s := db[i].shortId.value;
      assert '+' !in s by {
        assert forall k :: 0 <= k < |s| ==> IsNanoidChar(s[k]);
      }
      assert Matches(db[i], ById(s));
    }
    if db[i].alias.Some? {
      var a := db[i].alias.value;
      assert '+' !in a by {
        AllInClassMeans(a, AlphaNum);
      }
      assert Matches(db[i], ById(a));
    }
  }

  /** A recorded visit shows up in the analytics of the same identifier: one
      more click, the new timestamp last. */
  lemma VisitShowsInAnalytics(db: seq<UrlRecord>, id: string, now: int)
    requires '+' !in id
    requires GetAnalytics(db, id).Ok?
    ensures var before := GetAnalytics(db, id).value;
      GetAnalytics(RedirectTo(db, id, now).db, id)
        == Ok(Analytics(before.totalClicks + 1, before.history + [now]))
  {
    var i := FindOne(db, ById(id)).value;
    RedirectRecordsOneVisit(db, id, now, i);
    var after := RedirectTo(db, id, now).db;
    assert Matches(after[i], ById(id));
    assert forall j :: 0 <= j < i ==> after[j] == db[j] && !Matches(after[j], ById(id));
    assert FindOne(after, ById(id)) == Some(i);
  }

  /** The store after redirecting the same identifier once per timestamp. */
  function RedirectEach(db: seq<UrlRecord>, id: string, stamps: seq<int>): (r: seq<UrlRecord>)
    decreases |stamps|
  {
    if stamps == [] then db
    else RedirectEach(RedirectTo(db, id, stamps[0]).db, id, stamps[1..])
  }

  /** N redirects to one record leave exactly those N timestamps, in order, at
      the end of its history, and no other record changes. */
  lemma {:induction false} RepeatedVisitsAllRecorded(db: seq<UrlRecord>, id: string, stamps: seq<int>, i: nat)
    requires '+' !in id && i < |db|
    requires Matches(db[i], ById(id))
    requires forall j :: 0 <= j < i ==> !Matches(db[j], ById(id))
    ensures var after := RedirectEach(db, id, stamps);
      && |after| == |db|
      && after[i] == db[i].(visitHistory := db[i].visitHistory + stamps)
      && forall j :: 0 <= j < |db| && j != i ==> after[j] == db[j]
    decreases |stamps|
  {
    if stamps != [] {
      var next := RedirectTo(db, id, stamps[0]).db;
      RedirectRecordsOneVisit(db, id, stamps[0], i);
      RepeatedVisitsAllRecorded(next, id, stamps[1..], i);
      assert db[i].visitHistory + [stamps[0]] + stamps[1..] == db[i].visitHistory + stamps;
    }
  }

  // ---------------------------------------------------------------------------
  // Read-only lookups

  /** Analytics report as many clicks as the resolved record has visits, in
      the order they were recorded; an unknown identifier is not found. */
  lemma AnalyticsOfRecord(db: seq<UrlRecord>, id: string, i: nat)
    requires Consistent(db) && i < |db|
    requires db[i].shortId == Some(id) || db[i].alias == Some(id)
    requires forall j :: 0 <= j < i ==> !Matches(db[j], ById(id))
    ensures GetAnalytics(db, id) == Ok(Analytics(|db[i].visitHistory|, db[i].visitHistory))
    ensures GetPreview(db, id) == Ok(db[i].redirectURL)
  {
    assert FindOne(db, ById(id)) == Some(i);
  }

  // ---------------------------------------------------------------------------
  // The store invariant

  /** Saving record `i` as `rec` keeps the invariant when `rec` is well formed,
      keeps the destination and takes no identifier another record holds. */
  lemma SavePreservesConsistent(db: seq<UrlRecord>, i: nat, rec: UrlRecord)
    requires Consistent(db) && i < |db| && WellFormed(rec)
    requires rec.redirectURL == db[i].redirectURL
    requires rec.shortId.Some? ==> forall j :: 0 <= j < |db| && j != i ==> db[j].shortId != rec.shortId
    requires rec.alias.Some? ==> forall j :: 0 <= j < |db| && j != i ==> db[j].alias != rec.alias
    ensures Consistent(db[i := rec])
  {
    var after := db[i := rec];
    assert forall j :: 0 <= j < |db| && j != i ==> after[j] == db[j];
  }

  /** Creating `rec` keeps the invariant when it is well formed and shares
      neither its destination nor an identifier with a stored record. */
  lemma CreatePreservesConsistent(db: seq<UrlRecord>, rec: UrlRecord)
    requires Consistent(db) && WellFormed(rec)
    requires forall j :: 0 <= j < |db| ==> db[j].redirectURL != rec.redirectURL
    requires rec.shortId.Some? ==> forall j :: 0 <= j < |db| ==> db[j].shortId != rec.shortId
    requires rec.alias.Some? ==> forall j :: 0 <= j < |db| ==> db[j].alias != rec.alias
    ensures Consistent(db + [rec])
  {
    var after := db + [rec];
    assert forall j :: 0 <= j < |db| ==> after[j] == db[j];
  }

  lemma ShortenPreservesConsistent(db: seq<UrlRecord>, url: Option<string>, freshId: string)
    requires Consistent(db) && FreshShortId(db, freshId)
    ensures Consistent(ShortenUrl(db, url, freshId).db)
    ensures Evolves(db, ShortenUrl(db, url, freshId).db)
  {
    if Truthy(url) {
      match FindOne(db, ByUrl(url.value))
      case Some(i) =>
        if !Truthy(db[i].shortId) {
          assert WellFormed(db[i]);
          SavePreservesConsistent(db, i, db[i].(shortId := Some(freshId)));
        }
      case None =>
        CreatePreservesConsistent(db, UrlRecord(Some(freshId), None, url.value, []));
    }
  }

  lemma CustomizePreservesConsistent(db: seq<UrlRecord>, url: Option<string>, alias: Option<string>)
    requires Consistent(db)
    ensures Consistent(CustomizeUrl(db, url, alias).db)
    ensures Evolves(db, CustomizeUrl(db, url, alias).db)
  {
    if Truthy(url) && Truthy(alias) && AliasRegexTest(alias.value) {
      var holder := FindOne(db, ByAlias(alias.value));
      if !(holder.Some? && db[holder.value].redirectURL != url.value) {
        match FindOne(db, ByUrl(url.value))
        case Some(i) =>
          if !Truthy(db[i].alias) {
            assert WellFormed(db[i]);
            assert holder.None?;
            SavePreservesConsistent(db, i, db[i].(alias := alias));
          }
        case None =>
          assert holder.None?;
          CreatePreservesConsistent(db, UrlRecord(None, alias, url.value, []));
      }
    }
  }

  lemma RedirectPreservesConsistent(db: seq<UrlRecord>, id: string, now: int)
    requires Consistent(db)
    ensures Consistent(RedirectTo(db, id, now).db)
    ensures Evolves(db, RedirectTo(db, id, now).db)
    ensures |RedirectTo(db, id, now).db| == |db|
    ensures forall j :: 0 <= j < |db| && FindOne(db, ById(id)) != Some(j) ==> RedirectTo(db, id, now).db[j] == db[j]
    ensures FindOne(db, ById(id)).Some? && '+' !in id ==>
      var i := FindOne(db, ById(id)).value;
      RedirectTo(db, id, now).db[i] == db[i].(visitHistory := db[i].visitHistory + [now])
  {
    if '+' !in id {
      match FindOne(db, ById(id))
      case None =>
      case Some(i) =>
        assert WellFormed(db[i]);
        SavePreservesConsistent(db, i, db[i].(visitHistory := db[i].visitHistory + [now]));
    }
  }

  lemma {:induction false} EvolvesTransitive(a: seq<UrlRecord>, b: seq<UrlRecord>, c: seq<UrlRecord>)
    requires Evolves(a, b) && Evolves(b, c)
    ensures Evolves(a, c)
  {
    forall i | 0 <= i < |a|
      ensures a[i].visitHistory <= c[i].visitHistory
    {
      assert a[i].visitHistory <= b[i].visitHistory <= c[i].visitHistory;
    }
  }

  /** One request to one of the five handlers. */
  datatype Request =
    | ShortenRequest(url: Option<string>, freshId: string)
    | CustomRequest(url: Option<string>, alias: Option<string>)
    | RedirectRequest(id: string, now: int)
    | AnalyticsRequest(id: string)
    | PreviewRequest(id: string)

  /** The store contents after one request. */
  function Apply(db: seq<UrlRecord>, req: Request): (r: seq<UrlRecord>)
  {
    match req
    case ShortenRequest(url, freshId) => ShortenUrl(db, url, freshId).db
    case CustomRequest(url, alias) => CustomizeUrl(db, url, alias).db
    case RedirectRequest(id, now) => RedirectTo(db, id, now).db
    case AnalyticsRequest(_) => db
    case PreviewRequest(_) => db
  }

  /** The store contents after the requests, one after another. */
  function Run(db: seq<UrlRecord>, reqs: seq<Request>): (r: seq<UrlRecord>)
    decreases |reqs|
  {
    if reqs == [] then db else Run(Apply(db, reqs[0]), reqs[1..])
  }

  /** Each short-link request brings an id unused at the moment it is served. */
  ghost predicate FreshIdsThroughout(db: seq<UrlRecord>, reqs: seq<Request>)
    decreases |reqs|
  {
    reqs != [] ==>
      && (reqs[0].ShortenRequest? ==> FreshShortId(db, reqs[0].freshId))
      && FreshIdsThroughout(Apply(db, reqs[0]), reqs[1..])
  }

  /** Over any sequence of requests: at most one record per destination,
      short ids and aliases unique, and records, identifiers and visit
      histories only ever extended. */
  lemma {:induction false} RunPreservesConsistent(db: seq<UrlRecord>, reqs: seq<Request>)
    requires Consistent(db) && FreshIdsThroughout(db, reqs)
    ensures Consistent(Run(db, reqs))
    ensures Evolves(db, Run(db, reqs))
    decreases |reqs|
  {
    if reqs != [] {
      var next := Apply(db, reqs[0]);
      match reqs[0] {
        case ShortenRequest(url, freshId) => ShortenPreservesConsistent(db, url, freshId);
        case CustomRequest(url, alias) => CustomizePreservesConsistent(db, url, alias);
        case RedirectRequest(id, now) => RedirectPreservesConsistent(db, id, now);
        case AnalyticsRequest(_) =>
        case PreviewRequest(_) =>
      }
      RunPreservesConsistent(next, reqs[1..]);
      EvolvesTransitive(db, next, Run(next, reqs[1..]));
    }
  }

  // ---------------------------------------------------------------------------
  // Identifiers share one lookup

  /** Short ids and aliases are unique each on their own, not against each
      other: an alias that equals another destination's short id is accepted,
      and the identifier then resolves to whichever record comes first in the
      store. */
  lemma AliasMayEqualOtherShortId(id: string, first: string, second: string)
    requires IsNanoid(id) && ValidAlias(id)
    requires first != "" && second != "" && first != second
    ensures var db := [UrlRecord(Some(id), None, first, [])];
      var s := CustomizeUrl(db, Some(second), Some(id));
      && Consistent(db)
      && s.result == Ok(CustomReply(id, Created))
      && Consistent(s.db)
      && GetPreview(s.db, id) == Ok(first)
  {
    var db := [UrlRecord(Some(id), None, first, [])];
    assert Consistent(db) by {
      assert WellFormed(db[0]);
    }
    AliasRegexMeansValidAlias(id);
    CustomCreatesOnlyForNewUrl(db, Some(second), Some(id));
    CustomizePreservesConsistent(db, Some(second), Some(id));
    var after := CustomizeUrl(db, Some(second), Some(id)).db;
    assert Matches(after[0], ById(id));
  }

  /** The case above with the alias `Abcdefg1`, which is also a
      possible `nanoid(8)` value. */
  lemma AliasMayEqualOtherShortIdExample()
    ensures var db := [UrlRecord(Some("Abcdefg1"), None, "http://a.com", [])];
      var s := CustomizeUrl(db, Some("http://b.com"), Some("Abcdefg1"));
      s.result.Ok? && GetPreview(s.db, "Abcdefg1") == Ok("http://a.com")
  {
    var id := "Abcdefg1";
    AliasExamples();
    assert IsNanoid(id) by {
      assert forall k :: 0 <= k < |id| ==> InClass(id[k], AlphaNum);
    }
    AliasMayEqualOtherShortId(id, "http://a.com", "http://b.com");
  }

  /** Two different aliases for one destination: the second is a conflict. */
  lemma SecondAliasForUrlConflicts(url: string, alias: string, other: string)
    requires url != "" && ValidAlias(alias) && ValidAlias(other) && alias != other
    ensures var first := CustomizeUrl([], Some(url), Some(alias));
      && first.result == Ok(CustomReply(alias, Created))
      && CustomizeUrl(first.db, Some(url), Some(other)) == Step(Err(Conflict(UrlHasOtherAlias)), first.db)
  {
    AliasRegexMeansValidAlias(alias);
    var db := [UrlRecord(None, Some(alias), url, [])];
    assert CustomizeUrl([], Some(url), Some(alias)) == Step(Ok(CustomReply(alias, Created)), db);
    assert Consistent(db) by {
      assert WellFormed(db[0]);
    }
    OtherAliasConflict(db, 0, other);
  }

  /** One alias for two destinations: repeating the first request is answered
      as it is, the second destination gets a conflict. */
  lemma AliasForSecondUrlConflicts(url: string, otherUrl: string, alias: string)
    requires url != "" && otherUrl != "" && url != otherUrl && ValidAlias(alias)
    ensures var first := CustomizeUrl([], Some(url), Some(alias));
      && first.result == Ok(CustomReply(alias, Created))
      && CustomizeUrl(first.db, Some(url), Some(alias)) == Step(Ok(CustomReply(alias, Unchanged)), first.db)
      && CustomizeUrl(first.db, Some(otherUrl), Some(alias))
           == Step(Err(Conflict(AliasTakenForOtherUrl)), first.db)
  {
    AliasRegexMeansValidAlias(alias);
    CustomCreatesOnlyForNewUrl([], Some(url), Some(alias));
    CustomizePreservesConsistent([], Some(url), Some(alias));
    var db := CustomizeUrl([], Some(url), Some(alias)).db;
    AliasAlreadyHeld(db, 0);
    AliasTakenConflict(db, otherUrl, alias, 0);
  }
}
