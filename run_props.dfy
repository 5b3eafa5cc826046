/** What a whole run of the fetch job guarantees: which cats it saves, what
    it logs, when its save fails, that rejected items still leave their tags
    behind, and that running it again on the same answer adds nothing. */
module RunProperties {
  import opened Wrappers
  import opened Text
  import opened Entities
  import opened Data
  import opened TagRegistry
  import opened Ingestion
  import opened IngestionProperties

  /** A run that reaches the loop logs, whatever its end, one entry per
      violation of every item that is not skipped and fails validation. */
  lemma RunLog(config: Configuration, response: HttpResult, s: StoreState, now: int)
    requires ReachesLoop(config, response, s)
    ensures Run(config, response, s, now).0.log == Rejections(response.results.value, CatIds(s.cats), now)
  {
    RunOnLoop(config, response, s, now);
    var b0 := Batch([], [], BuildRegistry(s.tags).value, []);
    StageAllLog(b0, CatIds(s.cats), response.results.value, s.nextTagId, now);
  }

  /** The staged cats are the accepted candidates with tags attached. */
  lemma StagedCats(response: HttpResult, s: StoreState, now: int)
    requires response.Received? && response.results.Some? && BuildRegistry(s.tags).Some?
    ensures Untagged(Staged(response, s, now).newCats) == Accepted(response.results.value, CatIds(s.cats), now)
  {
    StageAllCatsFromEmpty(BuildRegistry(s.tags).value, CatIds(s.cats), response.results.value, s.nextTagId, now);
  }

  /** The save of a batch whose cats, tags aside, are `acc`: when it
      completes, the stored cats are kept and `acc` follows them with the
      next identity values as keys. */
  lemma SaveAppends(s: StoreState, b: Batch, acc: seq<Cat>)
    requires Untagged(b.newCats) == acc
    ensures var r := Save(s, b);
      r.0.Completed? ==>
        && r.0.catsSaved == |acc|
        && |r.1.cats| == |s.cats| + |acc|
        && r.1.cats[..|s.cats|] == s.cats
        && (forall k :: 0 <= k < |acc| ==> r.1.cats[|s.cats| + k].(tags := []) == acc[k].(id := s.nextCatId + k))
  {
    var r := Save(s, b);
    if r.0.Completed? && (|b.newCats| > 0 || |b.newTags| > 0) {
      var t := Commit(s, b.newCats, b.newTags).value;
      assert r.1 == t;
      forall k | 0 <= k < |acc|
        ensures t.cats[|s.cats| + k].(tags := []) == acc[k].(id := s.nextCatId + k)
      {
        assert t.cats[|s.cats| + k] == b.newCats[k].(id := s.nextCatId + k);
        assert Untagged(b.newCats)[k] == acc[k];
      }
    }
  }

  /** A run that completes keeps the stored cats and appends exactly the
      accepted candidates, in input order, with the next identity values as
      keys and the creation stamp of the run; every one of them is valid. */
  lemma RunSavesAccepted(config: Configuration, response: HttpResult, s: StoreState, now: int)
    requires ReachesLoop(config, response, s)
    ensures var r := Run(config, response, s, now);
      var acc := Accepted(response.results.value, CatIds(s.cats), now);
      r.0.Completed? ==>
        && r.0.catsSaved == |acc|
        && |r.1.cats| == |s.cats| + |acc|
        && r.1.cats[..|s.cats|] == s.cats
        && (forall k :: 0 <= k < |acc| ==> r.1.cats[|s.cats| + k].(tags := []) == acc[k].(id := s.nextCatId + k))
        && (forall k :: |s.cats| <= k < |r.1.cats| ==> IsValid(r.1.cats[k]))
  {
    RunOnLoop(config, response, s, now);
    var acc := Accepted(response.results.value, CatIds(s.cats), now);
    var r := Run(config, response, s, now);
    StagedCats(response, s, now);
    SaveAppends(s, Staged(response, s, now), acc);
    if r.0.Completed? {
      AcceptedValid(response.results.value, CatIds(s.cats), now);
      forall k | |s.cats| <= k < |r.1.cats| ensures IsValid(r.1.cats[k]) {
        var c := r.1.cats[k];
        var a := acc[k - |s.cats|];
        assert c.(tags := []) == a.(id := s.nextCatId + k - |s.cats|);
        ViolationsIgnoreTagsAndStamps(a, c.id, c.created, c.tags);
        assert c == a.(id := c.id, created := c.created, tags := c.tags);
      }
    }
  }

  /** A run that completes saves every accepted item with one tag per token
      of the item, in order, each named like its token ignoring case and
      each a stored tag: the join table links the new cat to them. */
  lemma RunSavesTags(config: Configuration, response: HttpResult, s: StoreState, now: int)
    requires ReachesLoop(config, response, s)
    ensures var r := Run(config, response, s, now);
      var acc := AcceptedItems(response.results.value, CatIds(s.cats), now);
      r.0.Completed? ==>
        && |r.1.cats| == |s.cats| + |acc|
        && (forall k :: 0 <= k < |acc| ==> TaggedLike(r.1.cats[|s.cats| + k], TagNames(acc[k])))
        && (forall i, j :: |s.cats| <= i < |r.1.cats| && 0 <= j < |r.1.cats[i].tags| ==> r.1.cats[i].tags[j] in r.1.tags)
  {
    var items := response.results.value;
    var registry := BuildRegistry(s.tags).value;
    var b0 := Batch([], [], registry, []);
    RunOnLoop(config, response, s, now);
    SeedOk(s, registry);
    StageAllTags(b0, CatIds(s.cats), items, s.tags, s.nextTagId, now);
    StageAllKeeps(b0, CatIds(s.cats), items, s.tags, s.nextTagId, now);
    SaveKeepsTags(s, Staged(response, s, now), AcceptedItems(items, CatIds(s.cats), now));
  }

  /** A save that completes stores each staged cat with its tags, all of
      them stored tags. */
  lemma SaveKeepsTags(s: StoreState, b: Batch, acc: seq<CatApiResponse>)
    requires TaggedFrom(b.newCats, 0, acc)
    requires forall i, k :: 0 <= i < |b.newCats| && 0 <= k < |b.newCats[i].tags| ==> b.newCats[i].tags[k] in s.tags + b.newTags
    ensures var r := Save(s, b);
      r.0.Completed? ==>
        && |r.1.cats| == |s.cats| + |acc|
        && (forall k :: 0 <= k < |acc| ==> TaggedLike(r.1.cats[|s.cats| + k], TagNames(acc[k])))
        && (forall i, j :: |s.cats| <= i < |r.1.cats| && 0 <= j < |r.1.cats[i].tags| ==> r.1.cats[i].tags[j] in r.1.tags)
  {
    var r := Save(s, b);
    SaveTags(s, b);
    if r.0.Completed? && |acc| > 0 {
      var t := Commit(s, b.newCats, b.newTags).value;
      assert r.1 == t;
      forall k | 0 <= k < |acc| ensures t.cats[|s.cats| + k].tags == b.newCats[k].tags {
        assert t.cats[|s.cats| + k] == b.newCats[k].(id := s.nextCatId + k);
      }
    }
  }

  /** Appending cats whose CatIds are all new keeps the CatIds unique exactly
      when the appended ones are unique among themselves. */
  lemma UniqueAfterAppend(stored: seq<Cat>, added: seq<Cat>, acc: seq<Cat>)
    requires UniqueCatIds(stored)
    requires Untagged(added) == acc
    requires forall k :: 0 <= k < |acc| ==> acc[k].catId !in CatIds(stored)
    ensures UniqueCatIds(stored + added) <==> UniqueCatIds(acc)
  {
    var all := stored + added;
    assert forall k :: 0 <= k < |added| ==> added[k].catId == acc[k].catId;
    if UniqueCatIds(acc) {
      forall i, j | 0 <= i < j < |all| ensures all[i].catId != all[j].catId {
        if j >= |stored| {
          assert all[j] == added[j - |stored|];
          if i >= |stored| {
            assert all[i] == added[i - |stored|];
          } else {
            assert all[i].catId in CatIds(stored);
          }
        }
      }
    } else {
      var i, j :| 0 <= i < j < |acc| && acc[i].catId == acc[j].catId;
      assert all[|stored| + i] == added[i] && all[|stored| + j] == added[j];
    }
  }

  /** A run that reaches the loop fails exactly when two accepted candidates
      share a CatId, and then with the save error: the unique index on CatId
      rejects the whole batch. */
  lemma SaveFailsIffRepeatedCatId(config: Configuration, response: HttpResult, s: StoreState, now: int)
    requires StoreValid(s) && ReachesLoop(config, response, s)
    ensures var r := Run(config, response, s, now);
      && (r.0.Failed? <==> !UniqueCatIds(Accepted(response.results.value, CatIds(s.cats), now)))
      && (r.0.Failed? ==> r.0.error == SaveFailed && r.1 == s)
  {
    RunOnLoop(config, response, s, now);
    var acc := Accepted(response.results.value, CatIds(s.cats), now);
    var b := Staged(response, s, now);
    StagedCats(response, s, now);
    UniqueAfterAppend(s.cats, b.newCats, acc);
  }

  /** Two items with the same CatId, unknown to the store and both valid,
      make the save fail and the run store nothing: the skip set is loaded
      once before the loop and never grows. */
  lemma RepeatedFreshItemFailsSave(config: Configuration, response: HttpResult, s: StoreState, now: int, i: nat, j: nat)
    requires StoreValid(s) && ReachesLoop(config, response, s)
    requires i < j < |response.results.value|
    requires response.results.value[i].id == response.results.value[j].id
    requires response.results.value[i].id !in CatIds(s.cats)
    requires IsValid(Candidate(response.results.value[i], now)) && IsValid(Candidate(response.results.value[j], now))
    ensures Run(config, response, s, now) == (Failed(SaveFailed, Rejections(response.results.value, CatIds(s.cats), now)), s)
  {
    var items := response.results.value;
    var ki, kj := AcceptedTwice(items, CatIds(s.cats), now, i, j);
    SaveFailsIffRepeatedCatId(config, response, s, now);
    RunLog(config, response, s, now);
  }

  /** A save that completes stores the staged tags after the stored ones. */
  lemma SaveTags(s: StoreState, b: Batch)
    ensures Save(s, b).0.Completed? ==> Save(s, b).1.tags == s.tags + b.newTags
  {
    if |b.newCats| == 0 && |b.newTags| == 0 {
      assert s.tags + b.newTags == s.tags;
    }
  }

  /** Some tag of the list has the name ignoring case. */
  predicate HasTagNamed(tags: seq<Tag>, name: string) {
    exists j :: 0 <= j < |tags| && Fold(tags[j].name) == Fold(name)
  }

  /** Every name filed in the registry of the loop invariant is the name of
      a stored or staged tag ignoring case. */
  lemma FiledIsNamed(b: Batch, stored: seq<Tag>, firstNewId: int, name: string)
    requires BatchOk(b, stored, firstNewId) && Fold(name) in b.registry
    ensures HasTagNamed(stored + b.newTags, name)
  {
    var pool := stored + b.newTags;
    var j :| 0 <= j < |pool| && pool[j] == b.registry[Fold(name)];
  }

  /** Every token of every item the loop does not skip names a stored or a
      staged tag ignoring case. */
  lemma StagedTokensNamed(response: HttpResult, s: StoreState, now: int)
    requires response.Received? && response.results.Some? && BuildRegistry(s.tags).Some?
    ensures var items := response.results.value;
      forall i, k :: 0 <= i < |items| && items[i].id !in CatIds(s.cats) && 0 <= k < |TagNames(items[i])| ==>
        HasTagNamed(s.tags + Staged(response, s, now).newTags, TagNames(items[i])[k])
  {
    var items := response.results.value;
    var registry := BuildRegistry(s.tags).value;
    var b0 := Batch([], [], registry, []);
    SeedOk(s, registry);
    StageAllKeeps(b0, CatIds(s.cats), items, s.tags, s.nextTagId, now);
    StageAllFiles(b0, CatIds(s.cats), items, s.tags, s.nextTagId, now);
    var b := Staged(response, s, now);
    forall i, k | 0 <= i < |items| && items[i].id !in CatIds(s.cats) && 0 <= k < |TagNames(items[i])|
      ensures HasTagNamed(s.tags + b.newTags, TagNames(items[i])[k])
    {
      FiledIsNamed(b, s.tags, s.nextTagId, TagNames(items[i])[k]);
    }
  }

  /** After a run that completes, every token of every item that was not
      skipped names a stored tag ignoring case, whether or not the item
      passed validation. */
  lemma CompletedRunFilesEveryToken(config: Configuration, response: HttpResult, s: StoreState, now: int)
    requires ConfigOk(config) && response.Received? && response.results.Some?
    ensures var r := Run(config, response, s, now);
      var items := response.results.value;
      r.0.Completed? ==>
        forall i, k :: 0 <= i < |items| && items[i].id !in CatIds(s.cats) && 0 <= k < |TagNames(items[i])| ==>
          HasTagNamed(r.1.tags, TagNames(items[i])[k])
  {
    if ReachesLoop(config, response, s) {
      RunOnLoop(config, response, s, now);
      SaveTags(s, Staged(response, s, now));
      StagedTokensNamed(response, s, now);
    }
  }

  /** Validation does not depend on the clock. */
  lemma ValidAnyTime(item: CatApiResponse, now: int, later: int)
    ensures IsValid(Candidate(item, later)) == IsValid(Candidate(item, now))
  {
    ViolationsIgnoreTagsAndStamps(Candidate(item, later), 0, now, []);
    assert Candidate(item, later).(id := 0, created := now, tags := []) == Candidate(item, now);
  }

  /** Once the CatId of every item that was neither skipped nor rejected is
      known, the same items accept nothing, whatever the clock. */
  lemma AcceptedNoneAfter(items: seq<CatApiResponse>, before: set<string>, after: set<string>, now: int, later: int)
    requires before <= after
    requires forall i :: 0 <= i < |items| && items[i].id !in before && IsValid(Candidate(items[i], now)) ==> items[i].id in after
    ensures Accepted(items, after, later) == []
  {
    forall i | 0 <= i < |items| ensures items[i].id in after || !IsValid(Candidate(items[i], later)) {
      ValidAnyTime(items[i], now, later);
    }
    AcceptedNone(items, after, later);
  }

  /** A second loop over the same items, after the first one's accepted
      cats were appended to the store, accepts nothing. */
  lemma SecondLoopAcceptsNothing(items: seq<CatApiResponse>, s: StoreState, t: StoreState, now: int, later: int)
    requires var acc := Accepted(items, CatIds(s.cats), now);
      && |t.cats| == |s.cats| + |acc| && t.cats[..|s.cats|] == s.cats
      && (forall k :: 0 <= k < |acc| ==> t.cats[|s.cats| + k].(tags := []) == acc[k].(id := s.nextCatId + k))
    ensures CatIds(s.cats) <= CatIds(t.cats)
    ensures Accepted(items, CatIds(t.cats), later) == []
  {
    PrefixKeepsCatIds(s.cats, t.cats);
    AppendedAcceptedIds(items, s, t, now);
    AcceptedNoneAfter(items, CatIds(s.cats), CatIds(t.cats), now, later);
  }

  /** Rows kept as a prefix keep their CatIds. */
  lemma PrefixKeepsCatIds(before: seq<Cat>, after: seq<Cat>)
    requires |before| <= |after| && after[..|before|] == before
    ensures CatIds(before) <= CatIds(after)
  {
    forall x | x in CatIds(before) ensures x in CatIds(after) {
      var j :| 0 <= j < |before| && before[j].catId == x;
      assert after[j] == after[..|before|][j];
    }
  }

  /** Every item accepted by the first loop has its CatId stored after the
      save. */
  lemma AppendedAcceptedIds(items: seq<CatApiResponse>, s: StoreState, t: StoreState, now: int)
    requires var acc := Accepted(items, CatIds(s.cats), now);
      && |t.cats| == |s.cats| + |acc|
      && (forall k :: 0 <= k < |acc| ==> t.cats[|s.cats| + k].(tags := []) == acc[k].(id := s.nextCatId + k))
    ensures forall i :: 0 <= i < |items| && items[i].id !in CatIds(s.cats) && IsValid(Candidate(items[i], now)) ==>
      items[i].id in CatIds(t.cats)
  {
    forall i | 0 <= i < |items| && items[i].id !in CatIds(s.cats) && IsValid(Candidate(items[i], now))
      ensures items[i].id in CatIds(t.cats)
    {
      var k := AcceptedIncludes(items, CatIds(s.cats), now, i);
      assert t.cats[|s.cats| + k].catId == items[i].id;
    }
  }

  /** A second loop over the same items finds every token of every item it
      does not skip in the registry built from the stored tags, when each of
      them names a stored tag. */
  lemma SecondLoopKnowsEveryToken(items: seq<CatApiResponse>, s: StoreState, t: StoreState)
    requires DistinctNames(t.tags)
    requires CatIds(s.cats) <= CatIds(t.cats)
    requires forall i, k :: 0 <= i < |items| && items[i].id !in CatIds(s.cats) && 0 <= k < |TagNames(items[i])| ==>
      HasTagNamed(t.tags, TagNames(items[i])[k])
    ensures BuildRegistry(t.tags).Some?
    ensures forall i, k :: 0 <= i < |items| && items[i].id !in CatIds(t.cats) && 0 <= k < |TagNames(items[i])| ==>
      Fold(TagNames(items[i])[k]) in BuildRegistry(t.tags).value
  {
    var reg := BuildRegistry(t.tags).value;
    forall i, k | 0 <= i < |items| && items[i].id !in CatIds(t.cats) && 0 <= k < |TagNames(items[i])|
      ensures Fold(TagNames(items[i])[k]) in reg
    {
      assert HasTagNamed(t.tags, TagNames(items[i])[k]);
      var j :| 0 <= j < |t.tags| && Fold(t.tags[j].name) == Fold(TagNames(items[i])[k]);
      assert Fold(t.tags[j].name) in reg;
    }
  }

  /** A loop that accepts nothing and knows every token leaves nothing to
      save. */
  lemma SecondRunSavesNothing(config: Configuration, response: HttpResult, t: StoreState, later: int)
    requires ReachesLoop(config, response, t)
    requires Accepted(response.results.value, CatIds(t.cats), later) == []
    requires var items := response.results.value;
      forall i, k :: 0 <= i < |items| && items[i].id !in CatIds(t.cats) && 0 <= k < |TagNames(items[i])| ==>
        Fold(TagNames(items[i])[k]) in BuildRegistry(t.tags).value
    ensures var r := Run(config, response, t, later);
      r.1 == t && r.0.Completed? && r.0.catsSaved == 0 && r.0.tagsSaved == 0
  {
    RunOnLoop(config, response, t, later);
    var b0 := Batch([], [], BuildRegistry(t.tags).value, []);
    StageAllKnownTags(b0, CatIds(t.cats), response.results.value, t.nextTagId, later);
    StagedCats(response, t, later);
    assert |Staged(response, t, later).newCats| == 0;
  }

  /** Running the job again on the same answer after a run that completed
      saves nothing and changes nothing, whenever it runs. */
  lemma RerunAddsNothing(config: Configuration, response: HttpResult, s: StoreState, now: int, later: int)
    requires StoreValid(s) && ConfigOk(config) && response.Received? && response.results.Some?
    requires Run(config, response, s, now).0.Completed?
    ensures var t := Run(config, response, s, now).1;
      var r := Run(config, response, t, later);
      && r.1 == t
      && r.0.Completed? && r.0.catsSaved == 0 && r.0.tagsSaved == 0
  {
    var items := response.results.value;
    if |items| > 0 {
      var t := Run(config, response, s, now).1;
      RunKeepsStoreValid(config, response, s, now);
      RunSavesAccepted(config, response, s, now);
      CompletedRunFilesEveryToken(config, response, s, now);
      SecondLoopAcceptsNothing(items, s, t, now, later);
      SecondLoopKnowsEveryToken(items, s, t);
      SecondRunSavesNothing(config, response, t, later);
    }
  }
}
