/** The decision logic of the URL controller, stated over the sequence of
    stored records (store order is the order `findOne` scans).  Each handler is
    a function from the store contents and the request to a `Step`: the typed
    result it answers with and the store contents it leaves behind. */
module Registry {
  import opened Records
  import opened Patterns

  // ---------------------------------------------------------------------------
  // Results

  /** Why a request was refused as malformed. */
  datatype Invalid = UrlRequired | AliasRequired | AliasMalformed

  /** Which alias rule a custom request broke. */
  datatype Clash = AliasTakenForOtherUrl | UrlHasOtherAlias

  datatype Error = Validation(why: Invalid) | Conflict(clash: Clash) | NotFound

  datatype Result<+T> = Ok(value: T) | Err(error: Error)

  /** The three success messages of the short-link handler. */
  datatype ShortStatus = Generated | AlreadyExists | NewlyCreated

  /** `{id, alias, message}`; the reply for a new record carries no alias. */
  datatype ShortReply = ShortReply(id: string, alias: Option<string>, status: ShortStatus)

  /** Success of the custom handler: an alias attached to an existing record,
      the existing record already holding that alias, or a new record. */
  datatype CustomStatus = Attached | Unchanged | Created

  datatype CustomReply = CustomReply(id: string, status: CustomStatus)

  /** Where a redirect sends the visitor: the preview page for the cleaned
      identifier, or the stored destination. */
  datatype Target = PreviewPage(cleanId: string) | Destination(url: string)

  /** `{totalClicks, analytics}`. */
  datatype Analytics = Analytics(totalClicks: nat, history: seq<int>)

  /** What a handler answers and the store contents after it. */
  datatype Step<+T> = Step(result: Result<T>, db: seq<UrlRecord>)

  // ---------------------------------------------------------------------------
  // Lookups

  /** The three query shapes the controller sends to the store. */
  datatype Key = ByUrl(url: string) | ByAlias(alias: string) | ById(id: string)

  /** `{redirectURL: url}`, `{alias: a}`, `{$or: [{shortId: id}, {alias: id}]}`. */
  predicate Matches(rec: UrlRecord, key: Key) {
    match key
    case ByUrl(u) => rec.redirectURL == u
    case ByAlias(a) => rec.alias == Some(a)
    case ById(id) => rec.shortId == Some(id) || rec.alias == Some(id)
  }

  /** `findOne`: the position of the first record matching the key, if any. */
  function FindOne(db: seq<UrlRecord>, key: Key): (r: Option<nat>)
    ensures r.Some? ==> r.value < |db| && Matches(db[r.value], key)
    ensures r.Some? ==> forall j :: 0 <= j < r.value ==> !Matches(db[j], key)
    ensures r.None? <==> forall j :: 0 <= j < |db| ==> !Matches(db[j], key)
  {
    if db == [] then None
    else if Matches(db[0], key) then Some(0)
    else match FindOne(db[1..], key)
      case None => None
      case Some(k) => Some(k + 1)
  }

  // ---------------------------------------------------------------------------
  // Invariants

  /** The characters `nanoid` draws from: `A-Za-z0-9_-`. */
  predicate IsNanoidChar(c: char) {
    InClass(c, AlphaNum) || c == '_' || c == '-'
  }

  /** What `nanoid(8)` yields: eight URL-safe characters. */
  ghost predicate IsNanoid(id: string) {
    |id| == 8 && forall k :: 0 <= k < |id| ==> IsNanoidChar(id[k])
  }

  /** What every stored record satisfies: a destination, at least one of the
      two identifiers, a short id as `nanoid(8)` makes them, an alias the
      alias pattern accepts. */
  ghost predicate WellFormed(rec: UrlRecord) {
    && rec.redirectURL != ""
    && (rec.shortId.Some? || rec.alias.Some?)
    && (rec.shortId.Some? ==> IsNanoid(rec.shortId.value))
    && (rec.alias.Some? ==> AliasRegexTest(rec.alias.value))
  }

  /** On a stored record the handlers' truthiness tests are presence tests:
      a short id made by `nanoid(8)` and an alias the pattern accepts are never
      empty, so `!existingUrl.shortId` and `!existingUrl.alias` hold exactly
      when the field is null, and `existingUrl.alias || null` is the alias. */
  lemma StoredFieldsTruthy(rec: UrlRecord)
    requires WellFormed(rec)
    ensures Truthy(rec.shortId) <==> rec.shortId.Some?
    ensures Truthy(rec.alias) <==> rec.alias.Some?
    ensures OrNull(rec.alias) == rec.alias
  {
  }

  ghost predicate UrlsUnique(db: seq<UrlRecord>) {
    forall i, j :: 0 <= i < j < |db| ==> db[i].redirectURL != db[j].redirectURL
  }

  ghost predicate ShortIdsUnique(db: seq<UrlRecord>) {
    forall i, j :: 0 <= i < j < |db| && db[i].shortId.Some? ==> db[i].shortId != db[j].shortId
  }

  ghost predicate AliasesUnique(db: seq<UrlRecord>) {
    forall i, j :: 0 <= i < j < |db| && db[i].alias.Some? ==> db[i].alias != db[j].alias
  }

  /** The store invariant the handlers maintain together. */
  ghost predicate Consistent(db: seq<UrlRecord>) {
    && (forall i :: 0 <= i < |db| ==> WellFormed(db[i]))
    && UrlsUnique(db)
    && ShortIdsUnique(db)
    && AliasesUnique(db)
  }

  /** What the caller-supplied replacement for `nanoid(8)` must be: eight
      URL-safe characters not yet used as a short id. */
  ghost predicate FreshShortId(db: seq<UrlRecord>, id: string) {
    IsNanoid(id) && forall j :: 0 <= j < |db| ==> db[j].shortId != Some(id)
  }

  /** How the store may change from `before` to `after`: records are only
      added, a destination never changes, an identifier once set stays, and a
      visit history only gets longer at its end. */
  ghost predicate Evolves(before: seq<UrlRecord>, after: seq<UrlRecord>) {
    && |before| <= |after|
    && forall i :: 0 <= i < |before| ==>
         && after[i].redirectURL == before[i].redirectURL
         && (before[i].shortId.Some? ==> after[i].shortId == before[i].shortId)
         && (before[i].alias.Some? ==> after[i].alias == before[i].alias)
         && before[i].visitHistory <= after[i].visitHistory
  }

  // ---------------------------------------------------------------------------
  // Handlers

  /** `generateNewShortURL`: find-or-create keyed on the destination.  A record
      without a short id receives `freshId`; one with a short id is answered
      as it is; otherwise a new record is appended. */
  function ShortenUrl(db: seq<UrlRecord>, url: Option<string>, freshId: string): (r: Step<ShortReply>)
    ensures r.result.Err? <==> !Truthy(url)
    ensures r.result.Err? ==> r.result.error == Validation(UrlRequired) && r.db == db
    ensures r.result.Ok? && r.result.value.status == AlreadyExists ==> r.db == db
    ensures |r.db| == |db| + (if r.result.Ok? && r.result.value.status == NewlyCreated then 1 else 0)
  {
    if !Truthy(url) then Step(Err(Validation(UrlRequired)), db)
    else match FindOne(db, ByUrl(url.value))
      case Some(i) =>
        if !Truthy(db[i].shortId) then
          Step(Ok(ShortReply(freshId, OrNull(db[i].alias), Generated)),
               db[i := db[i].(shortId := Some(freshId))])
        else
          Step(Ok(ShortReply(db[i].shortId.value, OrNull(db[i].alias), AlreadyExists)), db)
      case None =>
        Step(Ok(ShortReply(freshId, None, NewlyCreated)),
             db + [UrlRecord(Some(freshId), None, url.value, [])])
  }

  /** `generateNewCustomURL`.  After the validation steps: an alias held by a
      record of another destination is a conflict; then the record for the
      destination, if any, decides (different alias: conflict, no alias:
      attach, same alias: answer as it is); only without such a record is a
      new one appended.  Once the first two tests at the existing record fail,
      its alias is present and equal to the requested one, so the source's
      third test always holds there. */
  function CustomizeUrl(db: seq<UrlRecord>, url: Option<string>, alias: Option<string>): (r: Step<CustomReply>)
    ensures r.result.Err? ==> r.db == db
    ensures r.result.Ok? ==> && Truthy(url) && Truthy(alias) && AliasRegexTest(alias.value)
                             && r.result.value.id == alias.value
    ensures r.result.Ok? && r.result.value.status == Unchanged ==> r.db == db
    ensures |r.db| == |db| + (if r.result.Ok? && r.result.value.status == Created then 1 else 0)
  {
    if !Truthy(url) then Step(Err(Validation(UrlRequired)), db)
    else if !Truthy(alias) then Step(Err(Validation(AliasRequired)), db)
    else if !AliasRegexTest(alias.value) then Step(Err(Validation(AliasMalformed)), db)
    else
      var holder := FindOne(db, ByAlias(alias.value));
      if holder.Some? && db[holder.value].redirectURL != url.value then
        Step(Err(Conflict(AliasTakenForOtherUrl)), db)
      else match FindOne(db, ByUrl(url.value))
        case Some(i) =>
          if Truthy(db[i].alias) && db[i].alias.value != alias.value then
            Step(Err(Conflict(UrlHasOtherAlias)), db)
          else if !Truthy(db[i].alias) then
            Step(Ok(CustomReply(alias.value, Attached)), db[i := db[i].(alias := alias)])
          else
            Step(Ok(CustomReply(db[i].alias.value, Unchanged)), db)
        case None =>
          Step(Ok(CustomReply(alias.value, Created)),
               db + [UrlRecord(None, alias, url.value, [])])
  }

  /** `redirectToURL`.  An identifier with a `+` goes to the preview page of the
      identifier without its `+` characters, without a lookup.  Otherwise the
      first record matching the identifier gets `now` appended to its history
      and the visitor is sent to its destination. */
  function RedirectTo(db: seq<UrlRecord>, id: string, now: int): (r: Step<Target>)
    ensures |r.db| == |db|
    ensures r.result.Err? ==> r.result.error == NotFound && r.db == db
    ensures r.result.Ok? && r.result.value.PreviewPage? <==> '+' in id
    ensures r.result.Ok? && r.result.value.PreviewPage? ==> r.db == db
  {
    if '+' in id then Step(Ok(PreviewPage(StripPlus(id))), db)
    else match FindOne(db, ById(id))
      case None => Step(Err(NotFound), db)
      case Some(i) =>
        Step(Ok(Destination(db[i].redirectURL)),
             db[i := db[i].(visitHistory := db[i].visitHistory + [now])])
  }

  /** `getAnalytics`: the click count and history of the record the identifier
      resolves to. */
  function GetAnalytics(db: seq<UrlRecord>, id: string): (r: Result<Analytics>)
    ensures r.Err? <==> forall j :: 0 <= j < |db| ==> !Matches(db[j], ById(id))
    ensures r.Err? ==> r.error == NotFound
    ensures r.Ok? ==> exists j :: 0 <= j < |db| && Matches(db[j], ById(id))
                                  && r.value.history == db[j].visitHistory
    ensures r.Ok? ==> r.value.totalClicks == |r.value.history|
  {
    match FindOne(db, ById(id))
    case None => Err(NotFound)
    case Some(i) => Ok(Analytics(|db[i].visitHistory|, db[i].visitHistory))
  }

  /** `getPreview`: the destination of the record the identifier resolves to. */
  function GetPreview(db: seq<UrlRecord>, id: string): (r: Result<string>)
    ensures r.Err? <==> forall j :: 0 <= j < |db| ==> !Matches(db[j], ById(id))
    ensures r.Err? ==> r.error == NotFound
    ensures r.Ok? ==> exists j :: 0 <= j < |db| && Matches(db[j], ById(id))
                                  && r.value == db[j].redirectURL
  {
    match FindOne(db, ById(id))
    case None => Err(NotFound)
    case Some(i) => Ok(db[i].redirectURL)
  }
}
