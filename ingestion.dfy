/** One run of CatFetcherJob.FetchAndStoreCatsAsync as a function of the
    configuration, the answer of the cat API, the store and the clock: the
    configuration guards, the per-item loop (skip known CatIds, tokenise the
    first breed's temperament, resolve tags, validate, stage) and the
    all-or-nothing save. The class in fetcher_job.dfy runs the same steps
    imperatively and is proved to agree with Run. */
module Ingestion {
  import opened Wrappers
  import opened Text
  import opened Entities
  import opened Data
  import opened TagRegistry

  /** The configuration values CatApi:ApiKey and CatApi:ApiUrl; None when a
      key is missing. */
  datatype Configuration = Configuration(apiKey: Option<string>, apiUrl: Option<string>)

  /** The decoded shapes of the API's answer (CatFetcherJob.Breed and
      CatFetcherJob.CatApiResponse). */
  datatype Breed = Breed(temperament: string)
  datatype CatApiResponse = CatApiResponse(id: string, url: string, width: Int32, height: Int32, breeds: seq<Breed>)

  /** What GetAsync, EnsureSuccessStatusCode and ReadFromJsonAsync yield: an
      HttpRequestException (transport failure or non-success status), or the
      decoded list, None when the body is JSON null. */
  datatype HttpResult = RequestFailed | Received(results: Option<seq<CatApiResponse>>)

  /** The exceptions a run ends with. */
  datatype RunError =
    | MissingApiKey      // InvalidOperationException("Missing API Key")
    | MissingApiUrl      // InvalidOperationException("Missing API URL")
    | HttpRequestFailed  // the rethrown HttpRequestException
    | DuplicateTagName   // ToDictionary meets two stored names equal ignoring case
    | SaveFailed         // the rethrown exception of SaveChangesAsync

  /** One "Validation failed" error log line. */
  datatype LogEntry = LogEntry(catId: string, violation: Violation)

  /** How a run ends, with the validation errors it logged on the way. */
  datatype RunOutcome =
    | Completed(catsSaved: nat, tagsSaved: nat, log: seq<LogEntry>)
    | Failed(error: RunError, log: seq<LogEntry>)

  predicate ConfigOk(config: Configuration) {
    !IsNullOrWhiteSpace(config.apiKey) && !IsNullOrWhiteSpace(config.apiUrl)
  }

  /** The tag tokens of one item: the first breed's temperament split on
      ',', trimmed, empty tokens dropped; none without a breed or with a
      blank temperament. Later breeds are never read. */
  function TagNames(item: CatApiResponse): (r: seq<string>)
    ensures forall k :: 0 <= k < |r| ==> r[k] != [] && IsTrimmed(r[k]) && ',' !in r[k]
    ensures |item.breeds| == 0 || IsBlank(item.breeds[0].temperament) ==> r == []
    ensures |item.breeds| > 0 ==> r == SplitTrimmed(item.breeds[0].temperament, ',')
  {
    if |item.breeds| > 0 && !IsBlank(item.breeds[0].temperament) then
      SplitTrimmed(item.breeds[0].temperament, ',')
    else
      []
  }

  /** The CatEntity built from an item before its tags are attached. */
  function Candidate(item: CatApiResponse, now: int): Cat {
    NewCat(item.id, item.width, item.height, item.url, now)
  }

  /** One log line per violation, in order. */
  function LogFor(catId: string, errors: seq<Violation>): seq<LogEntry> {
    seq(|errors|, k requires 0 <= k < |errors| => LogEntry(catId, errors[k]))
  }

  /** The loop state: newCats, newTags, tagDictionary and the log so far. */
  datatype Batch = Batch(newCats: seq<Cat>, newTags: seq<Tag>, registry: Registry, log: seq<LogEntry>)

  /** One iteration of the foreach over the results. */
  function Step(b: Batch, existing: set<string>, item: CatApiResponse, firstNewId: int, now: int): Batch {
    if item.id in existing then b
    else
      var res := ResolveAll(Resolution([], b.newTags, b.registry), TagNames(item), firstNewId);
      var cat := Candidate(item, now).(tags := res.catTags);
      var errors := Violations(cat);
      if errors != [] then Batch(b.newCats, res.newTags, res.registry, b.log + LogFor(cat.catId, errors))
      else Batch(b.newCats + [cat], res.newTags, res.registry, b.log)
  }

  /** The whole foreach, items in order. */
  function StageAll(b: Batch, existing: set<string>, items: seq<CatApiResponse>, firstNewId: int, now: int): Batch
    decreases |items|
  {
    if |items| == 0 then b
    else Step(StageAll(b, existing, items[..|items| - 1], firstNewId, now), existing, items[|items| - 1], firstNewId, now)
  }

  /** The end of a run: nothing is saved when nothing was staged; otherwise
      the staged cats and tags are saved together, or, when the save throws,
      not at all. The log of the loop is kept either way. */
  function Save(s: StoreState, b: Batch): (r: (RunOutcome, StoreState))
    ensures r.0.log == b.log
    ensures r.0.Failed? ==> r.0.error == SaveFailed && r.1 == s
    ensures r.0.Completed? ==> r.0.catsSaved == |b.newCats| && r.0.tagsSaved == |b.newTags|
    ensures r.0.Completed? && r.1 != s ==> Commit(s, b.newCats, b.newTags) == Some(r.1)
  {
    if |b.newCats| == 0 && |b.newTags| == 0 then (Completed(0, 0, b.log), s)
    else match Commit(s, b.newCats, b.newTags)
      case None => (Failed(SaveFailed, b.log), s)
      case Some(t) => (Completed(|b.newCats|, |b.newTags|, b.log), t)
  }

  /** The run as a whole. Guards come first, the API key before the URL, and
      nothing is read from the API's answer when one of them fails; every
      failure leaves the store as it was. */
  function Run(config: Configuration, response: HttpResult, s: StoreState, now: int): (r: (RunOutcome, StoreState))
    ensures IsNullOrWhiteSpace(config.apiKey) ==> r == (Failed(MissingApiKey, []), s)
    ensures !IsNullOrWhiteSpace(config.apiKey) && IsNullOrWhiteSpace(config.apiUrl) ==> r == (Failed(MissingApiUrl, []), s)
    ensures ConfigOk(config) && response.RequestFailed? ==> r == (Failed(HttpRequestFailed, []), s)
    ensures ConfigOk(config) && response.Received? && (response.results.None? || response.results.value == []) ==>
              r == (Completed(0, 0, []), s)
    ensures r.0.Failed? ==> r.1 == s
    ensures r.0.Completed? && r.1 != s ==> r.0.catsSaved + r.0.tagsSaved > 0
  {
    if IsNullOrWhiteSpace(config.apiKey) then (Failed(MissingApiKey, []), s)
    else if IsNullOrWhiteSpace(config.apiUrl) then (Failed(MissingApiUrl, []), s)
    else match response
      case RequestFailed => (Failed(HttpRequestFailed, []), s)
      case Received(results) =>
        if results.None? || |results.value| == 0 then (Completed(0, 0, []), s)
        else match BuildRegistry(s.tags)
          case None => (Failed(DuplicateTagName, []), s)
          case Some(registry) =>
            Save(s, StageAll(Batch([], [], registry, []), CatIds(s.cats), results.value, s.nextTagId, now))
  }
}
