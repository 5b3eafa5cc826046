/** CatFetcherJob: the background job that fetches one page of cats from the
    cat API and stores the new ones. */
module FetcherJob {
  import opened Wrappers
  import opened Text
  import opened Entities
  import opened Data
  import opened TagRegistry
  import opened Ingestion
  import opened IngestionProperties

  class CatFetcherJob {
    const db: DbContext
    const config: Configuration

    constructor (db: DbContext, config: Configuration)
      ensures this.db == db && this.config == config
    {
      this.db := db;
      this.config := config;
    }

    /** ValidateModel: Validator.TryValidateObject with
        validateAllProperties: true. */
    method ValidateModel(cat: Cat) returns (ok: bool, results: seq<Violation>)
      ensures ok <==> IsValid(cat)
      ensures ok <==> results == []
      ensures results == Violations(cat)
    {
      results := Violations(cat);
      ok := |results| == 0;
    }

    /** The inner foreach of FetchAndStoreCatsAsync: look each token up in
        the dictionary ignoring case, or create a tag with the token's casing
        and the next provisional key. */
    method ResolveTags(tagNames: seq<string>, newTags0: seq<Tag>, tagDictionary0: Registry, firstNewId: int)
      returns (catTags: seq<Tag>, newTags: seq<Tag>, tagDictionary: Registry)
      ensures Resolution(catTags, newTags, tagDictionary) == ResolveAll(Resolution([], newTags0, tagDictionary0), tagNames, firstNewId)
    {
      catTags, newTags, tagDictionary := [], newTags0, tagDictionary0;
      for k := 0 to |tagNames|
        invariant Resolution(catTags, newTags, tagDictionary)
               == ResolveAll(Resolution([], newTags0, tagDictionary0), tagNames[..k], firstNewId)
      {
        assert tagNames[..k + 1][..k] == tagNames[..k];
        var tagName := tagNames[k];
        var key := Fold(tagName);
        var tag: Tag;
        if key in tagDictionary {
          tag := tagDictionary[key];
        } else {
          tag := Tag(firstNewId + |newTags|, tagName);
          newTags := newTags + [tag];
          tagDictionary := tagDictionary[key := tag];
        }
        catTags := catTags + [tag];
      }
      assert tagNames[..|tagNames|] == tagNames;
    }

    /** The logging foreach over the validation results: one entry per
        result, in order. */
    method LogValidationErrors(log0: seq<LogEntry>, catId: string, validationErrors: seq<Violation>)
      returns (log: seq<LogEntry>)
      ensures log == log0 + LogFor(catId, validationErrors)
    {
      log := log0;
      var e := 0;
      while e < |validationErrors|
        invariant 0 <= e <= |validationErrors|
        invariant log == log0 + LogFor(catId, validationErrors[..e])
      {
        assert validationErrors[..e + 1] == validationErrors[..e] + [validationErrors[e]];
        log := log + [LogEntry(catId, validationErrors[e])];
        e := e + 1;
      }
      assert validationErrors[..e] == validationErrors;
    }

    /** The outer foreach over the API's results: skip a CatId loaded before
        the loop, build the entity, resolve its tags, validate, then log or
        stage it. */
    method StageItems(items: seq<CatApiResponse>, existingCatIds: set<string>, registry: Registry, firstNewId: int, now: int)
      returns (newCats: seq<Cat>, newTags: seq<Tag>, tagDictionary: Registry, log: seq<LogEntry>)
      ensures Batch(newCats, newTags, tagDictionary, log)
           == StageAll(Batch([], [], registry, []), existingCatIds, items, firstNewId, now)
    {
      newCats, newTags, tagDictionary, log := [], [], registry, [];
      for i := 0 to |items|
        invariant Batch(newCats, newTags, tagDictionary, log)
               == StageAll(Batch([], [], registry, []), existingCatIds, items[..i], firstNewId, now)
      {
        assert items[..i + 1][..i] == items[..i];
        var result := items[i];
        if result.id in existingCatIds {
          continue;
        }

        var cat := NewCat(result.id, result.width, result.height, result.url, now);
        var catTags: seq<Tag> := [];
        if |result.breeds| > 0 && !IsBlank(result.breeds[0].temperament) {
          var tagNames := SplitTrimmed(result.breeds[0].temperament, ',');
          catTags, newTags, tagDictionary := ResolveTags(tagNames, newTags, tagDictionary, firstNewId);
        }
        cat := cat.(tags := catTags);

        var valid, validationErrors := ValidateModel(cat);
        if !valid {
          log := LogValidationErrors(log, cat.catId, validationErrors);
          continue;
        }
        newCats := newCats + [cat];
      }
      assert items[..|items|] == items;
    }

    /** FetchAndStoreCatsAsync, with the API's answer and the clock as
        inputs. The outcome and the new store are those of Run, and the
        store stays valid. */
    method FetchAndStoreCats(response: HttpResult, now: int) returns (outcome: RunOutcome)
      requires db.Valid()
      modifies db
      ensures db.Valid()
      ensures (outcome, db.Snapshot()) == Run(config, response, old(db.Snapshot()), now)
    {
      ghost var s := db.Snapshot();
      if IsNullOrWhiteSpace(config.apiKey) {
        return Failed(MissingApiKey, []);
      }
      if IsNullOrWhiteSpace(config.apiUrl) {
        return Failed(MissingApiUrl, []);
      }
      if response.RequestFailed? {
        return Failed(HttpRequestFailed, []);
      }
      var results := response.results;
      if results.None? || |results.value| == 0 {
        return Completed(0, 0, []);
      }
      var items := results.value;

      var existingCatIds := CatIds(db.cats);
      var seeded := BuildRegistry(db.tags);
      if seeded.None? {
        return Failed(DuplicateTagName, []);
      }
      var newCats, newTags, tagDictionary, log := StageItems(items, existingCatIds, seeded.value, db.nextTagId, now);

      if |newCats| == 0 && |newTags| == 0 {
        return Completed(0, 0, log);
      }
      SeedOk(s, seeded.value);
      StageAllKeeps(Batch([], [], seeded.value, []), existingCatIds, items, s.tags, s.nextTagId, now);
      var saved := db.SaveChanges(newCats, newTags);
      if !saved {
        return Failed(SaveFailed, log);
      }
      return Completed(|newCats|, |newTags|, log);
    }
  }
}
