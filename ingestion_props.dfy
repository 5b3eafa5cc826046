/** What one ingestion run guarantees, stated over the functions of module
    Ingestion and proved by induction over the loop. */
module IngestionProperties {
  import opened Wrappers
  import opened Text
  import opened Entities
  import opened Data
  import opened TagRegistry
  import opened Ingestion

  /** The loop invariant of a run: the registry indexes the stored and the
      staged tags, staged tags carry consecutive provisional keys, and staged
      cats link only to stored or staged tags. */
  ghost predicate BatchOk(b: Batch, stored: seq<Tag>, firstNewId: int) {
    && ResolutionOk(Resolution([], b.newTags, b.registry), stored, firstNewId)
    && (forall i, k :: 0 <= i < |b.newCats| && 0 <= k < |b.newCats[i].tags| ==> b.newCats[i].tags[k] in stored + b.newTags)
  }

  /** The cats with their tag lists emptied. */
  function Untagged(cats: seq<Cat>): seq<Cat> {
    seq(|cats|, i requires 0 <= i < |cats| => cats[i].(tags := []))
  }

  /** Reference definition of what a run stages: the candidate of every item
      whose CatId was not loaded before the loop and which passes validation,
      in input order, one per occurrence. */
  function Accepted(items: seq<CatApiResponse>, existing: set<string>, now: int): (r: seq<Cat>)
    ensures forall k :: 0 <= k < |r| ==> r[k].catId !in existing && r[k].tags == []
    decreases |items|
  {
    if |items| == 0 then []
    else
      var it := items[|items| - 1];
      var rest := Accepted(items[..|items| - 1], existing, now);
      if it.id !in existing && IsValid(Candidate(it, now)) then rest + [Candidate(it, now)] else rest
  }

  /** The items whose candidates Accepted lists, in the same order. */
  function AcceptedItems(items: seq<CatApiResponse>, existing: set<string>, now: int): (r: seq<CatApiResponse>)
    ensures forall k :: 0 <= k < |r| ==> r[k].id !in existing && IsValid(Candidate(r[k], now))
    decreases |items|
  {
    if |items| == 0 then []
    else
      var it := items[|items| - 1];
      var rest := AcceptedItems(items[..|items| - 1], existing, now);
      if it.id !in existing && IsValid(Candidate(it, now)) then rest + [it] else rest
  }

  /** AcceptedItems grows by at most the last item. */
  lemma AcceptedItemsStep(items: seq<CatApiResponse>, existing: set<string>, now: int)
    requires |items| > 0
    ensures var it := items[|items| - 1];
      AcceptedItems(items, existing, now) == AcceptedItems(items[..|items| - 1], existing, now)
        + (if it.id !in existing && IsValid(Candidate(it, now)) then [it] else [])
  {
  }

  /** Accepted lists the candidates of AcceptedItems, one for one. */
  lemma {:induction false} AcceptedOfItems(items: seq<CatApiResponse>, existing: set<string>, now: int)
    ensures |Accepted(items, existing, now)| == |AcceptedItems(items, existing, now)|
    ensures forall k :: 0 <= k < |AcceptedItems(items, existing, now)| ==>
      Accepted(items, existing, now)[k] == Candidate(AcceptedItems(items, existing, now)[k], now)
    decreases |items|
  {
    if |items| > 0 {
      AcceptedOfItems(items[..|items| - 1], existing, now);
    }
  }

  /** Every accepted candidate passes validation. */
  lemma {:induction false} AcceptedValid(items: seq<CatApiResponse>, existing: set<string>, now: int)
    ensures forall k :: 0 <= k < |Accepted(items, existing, now)| ==> IsValid(Accepted(items, existing, now)[k])
    decreases |items|
  {
    if |items| > 0 {
      AcceptedValid(items[..|items| - 1], existing, now);
      AcceptedPrefix(items, existing, now);
    }
  }

  /** Accepted grows by at most the last item's candidate. */
  lemma AcceptedStep(items: seq<CatApiResponse>, existing: set<string>, now: int)
    requires |items| > 0
    ensures var it := items[|items| - 1];
      Accepted(items, existing, now) == Accepted(items[..|items| - 1], existing, now)
        + (if it.id !in existing && IsValid(Candidate(it, now)) then [Candidate(it, now)] else [])
  {
  }

  /** What was accepted from a prefix of the items stays a prefix. */
  lemma AcceptedPrefix(items: seq<CatApiResponse>, existing: set<string>, now: int)
    requires |items| > 0
    ensures var rest := Accepted(items[..|items| - 1], existing, now);
      var r := Accepted(items, existing, now);
      |rest| <= |r| && r[..|rest|] == rest
  {
  }

  /** Every item that is not skipped and passes validation is staged: the
      position of its candidate in Accepted. */
  lemma {:induction false} AcceptedIncludes(items: seq<CatApiResponse>, existing: set<string>, now: int, i: nat)
    returns (k: nat)
    requires i < |items| && items[i].id !in existing && IsValid(Candidate(items[i], now))
    ensures k < |Accepted(items, existing, now)| && Accepted(items, existing, now)[k] == Candidate(items[i], now)
    decreases |items|
  {
    var init := items[..|items| - 1];
    AcceptedStep(items, existing, now);
    if i < |items| - 1 {
      assert items[i] == init[i];
      k := AcceptedIncludes(init, existing, now, i);
    } else {
      k := |Accepted(init, existing, now)|;
    }
  }

  /** AcceptedTwice when the later item is the last one. */
  lemma AcceptedTwiceLast(items: seq<CatApiResponse>, existing: set<string>, now: int, i: nat)
    returns (ki: nat, kj: nat)
    requires i < |items| - 1
    requires items[i].id !in existing && IsValid(Candidate(items[i], now))
    requires items[|items| - 1].id !in existing && IsValid(Candidate(items[|items| - 1], now))
    ensures ki < kj < |Accepted(items, existing, now)|
    ensures Accepted(items, existing, now)[ki] == Candidate(items[i], now)
    ensures Accepted(items, existing, now)[kj] == Candidate(items[|items| - 1], now)
  {
    var init := items[..|items| - 1];
    var rest := Accepted(init, existing, now);
    assert items[i] == init[i];
    ki := AcceptedIncludes(init, existing, now, i);
    kj := |rest|;
    AcceptedStep(items, existing, now);
    assert Accepted(items, existing, now) == rest + [Candidate(items[|items| - 1], now)];
  }

  /** Two items with the same fresh CatId that both pass validation are
      both staged, the earlier one first. */
  lemma {:induction false} AcceptedTwice(items: seq<CatApiResponse>, existing: set<string>, now: int, i: nat, j: nat)
    returns (ki: nat, kj: nat)
    requires i < j < |items|
    requires items[i].id !in existing && IsValid(Candidate(items[i], now))
    requires items[j].id !in existing && IsValid(Candidate(items[j], now))
    ensures ki < kj < |Accepted(items, existing, now)|
    ensures Accepted(items, existing, now)[ki] == Candidate(items[i], now)
    ensures Accepted(items, existing, now)[kj] == Candidate(items[j], now)
    decreases |items|, 1
  {
    if j < |items| - 1 {
      ki, kj := AcceptedTwiceEarlier(items, existing, now, i, j);
    } else {
      ki, kj := AcceptedTwiceLast(items, existing, now, i);
    }
  }

  /** AcceptedTwice when the later item is not the last one. */
  lemma {:induction false} AcceptedTwiceEarlier(items: seq<CatApiResponse>, existing: set<string>, now: int, i: nat, j: nat)
    returns (ki: nat, kj: nat)
    requires i < j < |items| - 1
    requires items[i].id !in existing && IsValid(Candidate(items[i], now))
    requires items[j].id !in existing && IsValid(Candidate(items[j], now))
    ensures ki < kj < |Accepted(items, existing, now)|
    ensures Accepted(items, existing, now)[ki] == Candidate(items[i], now)
    ensures Accepted(items, existing, now)[kj] == Candidate(items[j], now)
    decreases |items|, 0
  {
    var init := items[..|items| - 1];
    var rest := Accepted(init, existing, now);
    assert items[i] == init[i];
    assert items[j] == init[j];
    ki, kj := AcceptedTwice(init, existing, now, i, j);
    AcceptedPrefix(items, existing, now);
    assert Accepted(items, existing, now)[ki] == Accepted(items, existing, now)[..|rest|][ki];
    assert Accepted(items, existing, now)[kj] == Accepted(items, existing, now)[..|rest|][kj];
  }

  /** Nothing is accepted when every item is skipped or invalid. */
  lemma {:induction false} AcceptedNone(items: seq<CatApiResponse>, existing: set<string>, now: int)
    requires forall i :: 0 <= i < |items| ==> items[i].id in existing || !IsValid(Candidate(items[i], now))
    ensures Accepted(items, existing, now) == []
    decreases |items|
  {
    if |items| > 0 {
      var init := items[..|items| - 1];
      forall i | 0 <= i < |init| ensures init[i].id in existing || !IsValid(Candidate(init[i], now)) {
        assert init[i] == items[i];
      }
      AcceptedNone(init, existing, now);
      AcceptedStep(items, existing, now);
    }
  }

  /** Reference definition of what a run logs: for every item that is not
      skipped and fails validation, one entry per violation. */
  function Rejections(items: seq<CatApiResponse>, existing: set<string>, now: int): seq<LogEntry>
    decreases |items|
  {
    if |items| == 0 then []
    else
      var it := items[|items| - 1];
      var rest := Rejections(items[..|items| - 1], existing, now);
      if it.id !in existing && !IsValid(Candidate(it, now)) then
        rest + LogFor(it.id, Violations(Candidate(it, now)))
      else
        rest
  }

  /** One iteration keeps the loop invariant, keeps every staged tag and
      every registry entry, and changes nothing for a known CatId. */
  lemma StepKeeps(b: Batch, existing: set<string>, item: CatApiResponse, stored: seq<Tag>, firstNewId: int, now: int)
    requires BatchOk(b, stored, firstNewId)
    ensures var b' := Step(b, existing, item, firstNewId, now);
      && BatchOk(b', stored, firstNewId)
      && |b.newTags| <= |b'.newTags| && b'.newTags[..|b.newTags|] == b.newTags
      && (forall key :: key in b.registry ==> key in b'.registry && b'.registry[key] == b.registry[key])
      && (item.id in existing ==> b' == b)
  {
    if item.id !in existing {
      var r0 := Resolution([], b.newTags, b.registry);
      ResolveAllKeeps(r0, TagNames(item), stored, firstNewId);
      var res := ResolveAll(r0, TagNames(item), firstNewId);
      PoolGrows(b.newCats, stored, b.newTags, res.newTags);
      var b' := Step(b, existing, item, firstNewId, now);
      forall i, k | 0 <= i < |b'.newCats| && 0 <= k < |b'.newCats[i].tags|
        ensures b'.newCats[i].tags[k] in stored + b'.newTags
      {
        if i < |b.newCats| {
          assert b'.newCats[i] == b.newCats[i];
        }
      }
    }
  }

  /** Links into a pool of tags stay links into it when staged tags are
      appended. */
  lemma PoolGrows(cats: seq<Cat>, stored: seq<Tag>, tags: seq<Tag>, tags': seq<Tag>)
    requires |tags| <= |tags'| && tags'[..|tags|] == tags
    requires forall i, k :: 0 <= i < |cats| && 0 <= k < |cats[i].tags| ==> cats[i].tags[k] in stored + tags
    ensures forall i, k :: 0 <= i < |cats| && 0 <= k < |cats[i].tags| ==> cats[i].tags[k] in stored + tags'
  {
    forall i, k | 0 <= i < |cats| && 0 <= k < |cats[i].tags| ensures cats[i].tags[k] in stored + tags' {
      var t := cats[i].tags[k];
      var j :| 0 <= j < |stored + tags| && (stored + tags)[j] == t;
      if j >= |stored| {
        assert t == tags[j - |stored|] == tags'[j - |stored|];
      }
      assert (stored + tags')[j] == t;
    }
  }

  /** An item that is not skipped has every token filed, and every tag
      staged for it is named after one of its tokens. */
  lemma StepFiles(b: Batch, existing: set<string>, item: CatApiResponse, stored: seq<Tag>, firstNewId: int, now: int)
    requires BatchOk(b, stored, firstNewId) && item.id !in existing
    ensures var b' := Step(b, existing, item, firstNewId, now);
      && (forall k :: 0 <= k < |TagNames(item)| ==> Fold(TagNames(item)[k]) in b'.registry)
      && (forall j :: |b.newTags| <= j < |b'.newTags| ==> b'.newTags[j].name in TagNames(item))
  {
    ResolveAllKeeps(Resolution([], b.newTags, b.registry), TagNames(item), stored, firstNewId);
    ResolveAllNames(Resolution([], b.newTags, b.registry), TagNames(item), stored, firstNewId);
  }

  lemma UntaggedAppend(a: seq<Cat>, b: seq<Cat>)
    ensures Untagged(a + b) == Untagged(a) + Untagged(b)
  {
    assert forall k :: 0 <= k < |a + b| ==> Untagged(a + b)[k] == (Untagged(a) + Untagged(b))[k];
  }

  /** One iteration stages the item's candidate exactly when the item is not
      skipped and valid, and logs its violations exactly when it is not
      skipped and invalid. */
  lemma StepOutcome(b: Batch, existing: set<string>, item: CatApiResponse, firstNewId: int, now: int)
    ensures var b' := Step(b, existing, item, firstNewId, now);
      var c := Candidate(item, now);
      var isNew := item.id !in existing;
      && Untagged(b'.newCats) == Untagged(b.newCats) + (if isNew && IsValid(c) then [c] else [])
      && b'.log == b.log + (if isNew && !IsValid(c) then LogFor(item.id, Violations(c)) else [])
  {
    if item.id !in existing {
      var res := ResolveAll(Resolution([], b.newTags, b.registry), TagNames(item), firstNewId);
      var c := Candidate(item, now);
      var cat := c.(tags := res.catTags);
      ViolationsIgnoreTagsAndStamps(c, 0, now, res.catTags);
      assert cat.(id := 0, created := now, tags := res.catTags) == cat;
      if IsValid(c) {
        UntaggedAppend(b.newCats, [cat]);
        assert Untagged([cat]) == [c];
      }
    }
  }

  /** The staged cat of an accepted item is its candidate with the resolved
      tags attached. */
  lemma StepStages(b: Batch, existing: set<string>, item: CatApiResponse, firstNewId: int, now: int)
    requires item.id !in existing && IsValid(Candidate(item, now))
    ensures Step(b, existing, item, firstNewId, now).newCats
      == b.newCats + [Candidate(item, now).(tags := ResolveAll(Resolution([], b.newTags, b.registry), TagNames(item), firstNewId).catTags)]
  {
    var res := ResolveAll(Resolution([], b.newTags, b.registry), TagNames(item), firstNewId);
    var c := Candidate(item, now);
    var cat := c.(tags := res.catTags);
    ViolationsIgnoreTagsAndStamps(c, 0, now, res.catTags);
    assert cat.(id := 0, created := now, tags := res.catTags) == cat;
  }

  /** Resolving an item's tokens from the loop state yields one tag per
      token, named like the token ignoring case. */
  lemma ResolvedTagsMatch(b: Batch, names: seq<string>, stored: seq<Tag>, firstNewId: int)
    requires BatchOk(b, stored, firstNewId)
    ensures var t := ResolveAll(Resolution([], b.newTags, b.registry), names, firstNewId).catTags;
      && |t| == |names|
      && (forall k :: 0 <= k < |names| ==> Fold(t[k].name) == Fold(names[k]))
  {
    var r0 := Resolution([], b.newTags, b.registry);
    ResolveAllKeeps(r0, names, stored, firstNewId);
    ResolveAllNames(r0, names, stored, firstNewId);
    assert |r0.catTags| == 0;
  }

  /** A staged cat carries one tag per token of its item, in order, each
      named like the token ignoring case. */
  lemma StepTagsCat(b: Batch, existing: set<string>, item: CatApiResponse, stored: seq<Tag>, firstNewId: int, now: int)
    requires BatchOk(b, stored, firstNewId) && item.id !in existing && IsValid(Candidate(item, now))
    ensures var b' := Step(b, existing, item, firstNewId, now);
      && |b'.newCats| == |b.newCats| + 1
      && |b'.newCats[|b.newCats|].tags| == |TagNames(item)|
      && (forall k :: 0 <= k < |TagNames(item)| ==>
            Fold(b'.newCats[|b.newCats|].tags[k].name) == Fold(TagNames(item)[k]))
  {
    ResolvedTagsMatch(b, TagNames(item), stored, firstNewId);
    StepStages(b, existing, item, firstNewId, now);
  }

  /** A cat that carries one tag per token, in order, each named like its
      token ignoring case. */
  predicate TaggedLike(c: Cat, names: seq<string>) {
    && |c.tags| == |names|
    && (forall k :: 0 <= k < |names| ==> Fold(c.tags[k].name) == Fold(names[k]))
  }

  /** An item that is skipped or rejected stages no cat. */
  lemma StepStagesNothing(b: Batch, existing: set<string>, item: CatApiResponse, firstNewId: int, now: int)
    requires item.id in existing || !IsValid(Candidate(item, now))
    ensures Step(b, existing, item, firstNewId, now).newCats == b.newCats
  {
    if item.id !in existing {
      var res := ResolveAll(Resolution([], b.newTags, b.registry), TagNames(item), firstNewId);
      var c := Candidate(item, now);
      ViolationsIgnoreTagsAndStamps(c, 0, now, res.catTags);
      assert c.(tags := res.catTags).(id := 0, created := now, tags := res.catTags) == c.(tags := res.catTags);
    }
  }

  /** From position `n` on, `cats` holds one cat per item of `acc`, each
      tagged like the item's tokens. */
  predicate TaggedFrom(cats: seq<Cat>, n: nat, acc: seq<CatApiResponse>) {
    && |cats| == n + |acc|
    && (forall k :: 0 <= k < |acc| ==> TaggedLike(cats[n + k], TagNames(acc[k])))
  }

  lemma AppendTagged(cats: seq<Cat>, cat: Cat, n: nat, acc: seq<CatApiResponse>, it: CatApiResponse)
    requires TaggedFrom(cats, n, acc) && TaggedLike(cat, TagNames(it))
    ensures TaggedFrom(cats + [cat], n, acc + [it])
    ensures (cats + [cat])[..|cats|] == cats
  {
    var cats', acc' := cats + [cat], acc + [it];
    forall k | 0 <= k < |acc'| ensures TaggedLike(cats'[n + k], TagNames(acc'[k])) {
      if k < |acc| {
        assert cats'[n + k] == cats[n + k];
      }
    }
  }

  /** One iteration over an accepted item appends its staged cat, tagged
      like its tokens, after what was staged before. */
  lemma StepTagged(m: Batch, existing: set<string>, it: CatApiResponse, stored: seq<Tag>, firstNewId: int, now: int,
                   n: nat, acc: seq<CatApiResponse>)
    requires BatchOk(m, stored, firstNewId) && TaggedFrom(m.newCats, n, acc)
    requires it.id !in existing && IsValid(Candidate(it, now))
    ensures var cats' := Step(m, existing, it, firstNewId, now).newCats;
      TaggedFrom(cats', n, acc + [it]) && cats'[..|m.newCats|] == m.newCats
  {
    StepTagsCat(m, existing, it, stored, firstNewId, now);
    StepStages(m, existing, it, firstNewId, now);
    var cats' := Step(m, existing, it, firstNewId, now).newCats;
    var cat := cats'[|m.newCats|];
    assert cats' == m.newCats + [cat];
    AppendTagged(m.newCats, cat, n, acc, it);
  }

  /** The loop appends one staged cat per accepted item, in order, each
      tagged like the item's tokens, and keeps what was staged before. */
  lemma {:induction false} StageAllTags(b: Batch, existing: set<string>, items: seq<CatApiResponse>, stored: seq<Tag>, firstNewId: int, now: int)
    requires BatchOk(b, stored, firstNewId)
    ensures var b' := StageAll(b, existing, items, firstNewId, now);
      && TaggedFrom(b'.newCats, |b.newCats|, AcceptedItems(items, existing, now))
      && b'.newCats[..|b.newCats|] == b.newCats
    decreases |items|
  {
    if |items| > 0 {
      var init := items[..|items| - 1];
      var it := items[|items| - 1];
      var n := |b.newCats|;
      var m := StageAll(b, existing, init, firstNewId, now);
      var accInit := AcceptedItems(init, existing, now);
      assert TaggedFrom(m.newCats, n, accInit) && m.newCats[..n] == b.newCats by {
        StageAllTags(b, existing, init, stored, firstNewId, now);
      }
      assert BatchOk(m, stored, firstNewId) by {
        StageAllKeeps(b, existing, init, stored, firstNewId, now);
      }
      var cats' := Step(m, existing, it, firstNewId, now).newCats;
      assert StageAll(b, existing, items, firstNewId, now).newCats == cats';
      AcceptedItemsStep(items, existing, now);
      if it.id !in existing && IsValid(Candidate(it, now)) {
        StepTagged(m, existing, it, stored, firstNewId, now, n, accInit);
      } else {
        StepStagesNothing(m, existing, it, firstNewId, now);
        assert accInit + [] == accInit;
      }
      assert cats'[..n] == cats'[..|m.newCats|][..n];
    }
  }

  /** The loop keeps its invariant, every staged tag and every registry
      entry. */
  lemma {:induction false} StageAllKeeps(b: Batch, existing: set<string>, items: seq<CatApiResponse>, stored: seq<Tag>, firstNewId: int, now: int)
    requires BatchOk(b, stored, firstNewId)
    ensures var b' := StageAll(b, existing, items, firstNewId, now);
      && BatchOk(b', stored, firstNewId)
      && |b.newTags| <= |b'.newTags| && b'.newTags[..|b.newTags|] == b.newTags
      && (forall key :: key in b.registry ==> key in b'.registry && b'.registry[key] == b.registry[key])
    decreases |items|
  {
    if |items| > 0 {
      var init := items[..|items| - 1];
      StageAllKeeps(b, existing, init, stored, firstNewId, now);
      var m := StageAll(b, existing, init, firstNewId, now);
      StepKeeps(m, existing, items[|items| - 1], stored, firstNewId, now);
      var b' := Step(m, existing, items[|items| - 1], firstNewId, now);
      assert b'.newTags[..|b.newTags|] == b.newTags by {
        assert b'.newTags[..|m.newTags|] == m.newTags;
        assert m.newTags[..|b.newTags|] == b.newTags;
      }
    }
  }

  /** Rejections grows by the violations of the last item at most. */
  lemma RejectionsStep(items: seq<CatApiResponse>, existing: set<string>, now: int)
    requires |items| > 0
    ensures var it := items[|items| - 1];
      Rejections(items, existing, now) == Rejections(items[..|items| - 1], existing, now)
        + (if it.id !in existing && !IsValid(Candidate(it, now)) then LogFor(it.id, Violations(Candidate(it, now))) else [])
  {
  }

  /** The loop stages exactly Accepted, in order, after what was staged
      before (tags aside). */
  lemma {:induction false} StageAllCats(b: Batch, existing: set<string>, items: seq<CatApiResponse>, firstNewId: int, now: int)
    ensures Untagged(StageAll(b, existing, items, firstNewId, now).newCats) == Untagged(b.newCats) + Accepted(items, existing, now)
    decreases |items|
  {
    if |items| > 0 {
      var init := items[..|items| - 1];
      StageAllCats(b, existing, init, firstNewId, now);
      StepOutcome(StageAll(b, existing, init, firstNewId, now), existing, items[|items| - 1], firstNewId, now);
      AcceptedStep(items, existing, now);
    }
  }

  /** From an empty batch, the loop stages exactly the accepted candidates,
      tags aside. */
  lemma StageAllCatsFromEmpty(registry: Registry, existing: set<string>, items: seq<CatApiResponse>, firstNewId: int, now: int)
    ensures Untagged(StageAll(Batch([], [], registry, []), existing, items, firstNewId, now).newCats) == Accepted(items, existing, now)
  {
    var b0 := Batch([], [], registry, []);
    StageAllCats(b0, existing, items, firstNewId, now);
    assert Untagged(b0.newCats) == [];
  }

  /** The loop logs exactly Rejections after what was logged before. */
  lemma {:induction false} StageAllLog(b: Batch, existing: set<string>, items: seq<CatApiResponse>, firstNewId: int, now: int)
    ensures StageAll(b, existing, items, firstNewId, now).log == b.log + Rejections(items, existing, now)
    decreases |items|
  {
    if |items| > 0 {
      var init := items[..|items| - 1];
      StageAllLog(b, existing, init, firstNewId, now);
      StepOutcome(StageAll(b, existing, init, firstNewId, now), existing, items[|items| - 1], firstNewId, now);
      RejectionsStep(items, existing, now);
    }
  }

  /** Every token of every item that was not skipped is filed in the final
      registry, rejected items included. */
  lemma {:induction false} StageAllFiles(b: Batch, existing: set<string>, items: seq<CatApiResponse>, stored: seq<Tag>, firstNewId: int, now: int)
    requires BatchOk(b, stored, firstNewId)
    ensures var b' := StageAll(b, existing, items, firstNewId, now);
      forall i, k :: 0 <= i < |items| && items[i].id !in existing && 0 <= k < |TagNames(items[i])| ==>
        Fold(TagNames(items[i])[k]) in b'.registry
    decreases |items|
  {
    if |items| > 0 {
      var init := items[..|items| - 1];
      var it := items[|items| - 1];
      StageAllFiles(b, existing, init, stored, firstNewId, now);
      StageAllKeeps(b, existing, init, stored, firstNewId, now);
      var m := StageAll(b, existing, init, firstNewId, now);
      StepKeeps(m, existing, it, stored, firstNewId, now);
      if it.id !in existing {
        StepFiles(m, existing, it, stored, firstNewId, now);
      }
      var b' := Step(m, existing, it, firstNewId, now);
      forall i, k | 0 <= i < |items| && items[i].id !in existing && 0 <= k < |TagNames(items[i])|
        ensures Fold(TagNames(items[i])[k]) in b'.registry
      {
        if i < |items| - 1 {
          assert items[i] == init[i];
          assert Fold(TagNames(init[i])[k]) in m.registry;
        }
      }
    }
  }

  /** An item whose tokens are all known already, ignoring case, stages no
      tag and leaves the registry as it was. */
  lemma StepKnownTags(b: Batch, existing: set<string>, item: CatApiResponse, firstNewId: int, now: int)
    requires item.id !in existing ==> forall k :: 0 <= k < |TagNames(item)| ==> Fold(TagNames(item)[k]) in b.registry
    ensures Step(b, existing, item, firstNewId, now).newTags == b.newTags
    ensures Step(b, existing, item, firstNewId, now).registry == b.registry
  {
    if item.id !in existing {
      ResolveAllKnown(Resolution([], b.newTags, b.registry), TagNames(item), firstNewId);
    }
  }

  /** A loop over items whose tokens are all known already, ignoring case,
      stages no tag. */
  lemma {:induction false} StageAllKnownTags(b: Batch, existing: set<string>, items: seq<CatApiResponse>, firstNewId: int, now: int)
    requires forall i, k :: 0 <= i < |items| && items[i].id !in existing && 0 <= k < |TagNames(items[i])| ==>
      Fold(TagNames(items[i])[k]) in b.registry
    ensures StageAll(b, existing, items, firstNewId, now).newTags == b.newTags
    ensures StageAll(b, existing, items, firstNewId, now).registry == b.registry
    decreases |items|
  {
    if |items| > 0 {
      var init := items[..|items| - 1];
      assert forall i :: 0 <= i < |init| ==> init[i] == items[i];
      StageAllKnownTags(b, existing, init, firstNewId, now);
      StepKnownTags(StageAll(b, existing, init, firstNewId, now), existing, items[|items| - 1], firstNewId, now);
    }
  }

  /** The state a run starts its loop from satisfies the loop invariant. */
  lemma SeedOk(s: StoreState, registry: Registry)
    requires BuildRegistry(s.tags) == Some(registry)
    ensures BatchOk(Batch([], [], registry, []), s.tags, s.nextTagId)
  {
    assert s.tags + [] == s.tags;
  }

  /** The run gets past every guard and reaches the loop: the configuration
      is set, the API answered with a non-empty list and the stored tag names
      are distinct ignoring case. */
  predicate ReachesLoop(config: Configuration, response: HttpResult, s: StoreState) {
    && ConfigOk(config)
    && response.Received? && response.results.Some? && |response.results.value| > 0
    && BuildRegistry(s.tags).Some?
  }

  /** The loop state at the end of a run that reaches the loop. */
  function Staged(response: HttpResult, s: StoreState, now: int): Batch
    requires response.Received? && response.results.Some? && BuildRegistry(s.tags).Some?
  {
    StageAll(Batch([], [], BuildRegistry(s.tags).value, []), CatIds(s.cats), response.results.value, s.nextTagId, now)
  }

  /** A run that reaches the loop ends with the save of what its loop
      staged. */
  lemma RunOnLoop(config: Configuration, response: HttpResult, s: StoreState, now: int)
    requires ReachesLoop(config, response, s)
    ensures Run(config, response, s, now) == Save(s, Staged(response, s, now))
  {
  }

  /** Saving a batch that satisfies the loop invariant keeps the store
      valid, and leaves stored tag names distinct ignoring case. */
  lemma SaveKeepsValid(s: StoreState, b: Batch)
    requires StoreValid(s) && BatchOk(b, s.tags, s.nextTagId)
    ensures StoreValid(Save(s, b).1)
    ensures DistinctNames(s.tags) ==> DistinctNames(Save(s, b).1.tags)
  {
    CommitKeepsValid(s, b.newCats, b.newTags);
    NamesStayDistinct(Resolution([], b.newTags, b.registry), s.tags, s.nextTagId);
  }

  /** A run keeps the store valid, and keeps stored tag names distinct
      ignoring case when they were. */
  lemma RunKeepsStoreValid(config: Configuration, response: HttpResult, s: StoreState, now: int)
    requires StoreValid(s)
    ensures StoreValid(Run(config, response, s, now).1)
    ensures DistinctNames(s.tags) ==> DistinctNames(Run(config, response, s, now).1.tags)
  {
    if ReachesLoop(config, response, s) {
      var registry := BuildRegistry(s.tags).value;
      SeedOk(s, registry);
      var b0 := Batch([], [], registry, []);
      StageAllKeeps(b0, CatIds(s.cats), response.results.value, s.tags, s.nextTagId, now);
      RunOnLoop(config, response, s, now);
      SaveKeepsValid(s, Staged(response, s, now));
    }
  }
}
