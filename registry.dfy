/** The case-insensitive tag registry of one ingestion run
    (CatFetcherJob.FetchAndStoreCatsAsync, lines 67-68 and 94-104): a
    dictionary seeded from the stored tags and keyed by the folded name,
    extended with each new tag as it is staged. */
module TagRegistry {
  import opened Wrappers
  import opened Text
  import opened Entities

  /** Dictionary<string, TagEntity> with StringComparer.OrdinalIgnoreCase:
      a map keyed by the folded name. */
  type Registry = map<string, Tag>

  /** No two tags of the list have names equal ignoring case. */
  predicate DistinctNames(tags: seq<Tag>) {
    forall i, j :: 0 <= i < j < |tags| ==> Fold(tags[i].name) != Fold(tags[j].name)
  }

  /** `reg` indexes exactly the tags of `pool`: each of them is found under
      its folded name, and each entry is one of them filed under its folded
      name. */
  ghost predicate Indexes(reg: Registry, pool: seq<Tag>) {
    && (forall i :: 0 <= i < |pool| ==> Fold(pool[i].name) in reg && reg[Fold(pool[i].name)] == pool[i])
    && (forall key :: key in reg ==> reg[key] in pool && Fold(reg[key].name) == key)
  }

  /** existingTags.ToDictionary(t => t.Name, OrdinalIgnoreCase): None stands
      for the ArgumentException thrown on a second name that equals an
      earlier one ignoring case. */
  function BuildRegistry(tags: seq<Tag>): (r: Option<Registry>)
    ensures r.Some? <==> DistinctNames(tags)
    ensures r.Some? ==> Indexes(r.value, tags)
    decreases |tags|
  {
    if |tags| == 0 then Some(map[])
    else
      var init := tags[..|tags| - 1];
      var t := tags[|tags| - 1];
      var key := Fold(t.name);
      match BuildRegistry(init)
      case None => None
      case Some(m) =>
        if key in m then
          ClashBreaksDistinct(tags, m);
          None
        else
          FilingKeepsIndex(tags, m);
          Some(m[key := t])
  }

  /** A last name already filed ignoring case repeats an earlier one. */
  lemma ClashBreaksDistinct(tags: seq<Tag>, m: Registry)
    requires |tags| > 0 && Indexes(m, tags[..|tags| - 1])
    requires Fold(tags[|tags| - 1].name) in m
    ensures !DistinctNames(tags)
  {
    var init := tags[..|tags| - 1];
    var i :| 0 <= i < |init| && init[i] == m[Fold(tags[|tags| - 1].name)];
    assert tags[i] == init[i];
  }

  /** Filing a last name not yet known ignoring case indexes the whole
      list and keeps the names distinct. */
  lemma FilingKeepsIndex(tags: seq<Tag>, m: Registry)
    requires |tags| > 0 && Indexes(m, tags[..|tags| - 1]) && DistinctNames(tags[..|tags| - 1])
    requires Fold(tags[|tags| - 1].name) !in m
    ensures DistinctNames(tags)
    ensures Indexes(m[Fold(tags[|tags| - 1].name) := tags[|tags| - 1]], tags)
  {
    var init := tags[..|tags| - 1];
    var t := tags[|tags| - 1];
    var key := Fold(t.name);
    var m' := m[key := t];
    forall i, j | 0 <= i < j < |tags| ensures Fold(tags[i].name) != Fold(tags[j].name) {
      assert tags[i] == init[i];
      if j < |tags| - 1 { assert tags[j] == init[j]; }
    }
    forall i | 0 <= i < |tags| ensures Fold(tags[i].name) in m' && m'[Fold(tags[i].name)] == tags[i] {
      if i < |tags| - 1 { assert tags[i] == init[i]; }
    }
    forall k | k in m' ensures m'[k] in tags && Fold(m'[k].name) == k {
      if k != key {
        var i :| 0 <= i < |init| && init[i] == m[k];
        assert tags[i] == init[i];
      }
    }
  }

  /** The state of one resolution: the tags attached to the cat being built
      (cat.Tags), the run's staged new tags (newTags) and the registry
      (tagDictionary). */
  datatype Resolution = Resolution(catTags: seq<Tag>, newTags: seq<Tag>, registry: Registry)

  /** One pass of the inner loop: reuse the tag filed under the folded name,
      or stage a new tag with the token's own casing and the next
      provisional key, and file it. Either way the tag is attached. */
  function ResolveTag(r: Resolution, name: string, firstNewId: int): Resolution {
    var key := Fold(name);
    if key in r.registry then
      r.(catTags := r.catTags + [r.registry[key]])
    else
      var tag := Tag(firstNewId + |r.newTags|, name);
      Resolution(r.catTags + [tag], r.newTags + [tag], r.registry[key := tag])
  }

  /** The inner loop over all tokens of one item, in order. */
  function ResolveAll(r: Resolution, names: seq<string>, firstNewId: int): Resolution
    decreases |names|
  {
    if |names| == 0 then r
    else ResolveTag(ResolveAll(r, names[..|names| - 1], firstNewId), names[|names| - 1], firstNewId)
  }

  /** The new tags carry the provisional keys firstNewId, firstNewId + 1, ... */
  predicate KeyedFrom(newTags: seq<Tag>, firstNewId: int) {
    forall k :: 0 <= k < |newTags| ==> newTags[k].id == firstNewId + k
  }

  /** The invariant of the registry during a run: it indexes the stored tags
      and the staged ones, the staged ones carry consecutive provisional
      keys, and the cat links only to stored or staged tags. */
  ghost predicate ResolutionOk(r: Resolution, stored: seq<Tag>, firstNewId: int) {
    && Indexes(r.registry, stored + r.newTags)
    && KeyedFrom(r.newTags, firstNewId)
    && (forall k :: 0 <= k < |r.catTags| ==> r.catTags[k] in stored + r.newTags)
  }

  /** One token: a name already known ignoring case reuses that very tag and
      stages nothing; an unknown one stages exactly one tag, with the token's
      casing. The attached tag has the token's name ignoring case. */
  lemma ResolveTagSpec(r: Resolution, name: string, stored: seq<Tag>, firstNewId: int)
    requires ResolutionOk(r, stored, firstNewId)
    ensures var r' := ResolveTag(r, name, firstNewId);
      && ResolutionOk(r', stored, firstNewId)
      && r'.catTags[..|r.catTags|] == r.catTags && |r'.catTags| == |r.catTags| + 1
      && Fold(r'.catTags[|r.catTags|].name) == Fold(name)
      && Fold(name) in r'.registry
      && (forall i :: 0 <= i < |stored + r.newTags| && Fold((stored + r.newTags)[i].name) == Fold(name) ==>
            r'.newTags == r.newTags && r'.catTags[|r.catTags|] == (stored + r.newTags)[i])
      && ((forall i :: 0 <= i < |stored + r.newTags| ==> Fold((stored + r.newTags)[i].name) != Fold(name)) ==>
            r'.newTags == r.newTags + [Tag(firstNewId + |r.newTags|, name)])
  {
    var r' := ResolveTag(r, name, firstNewId);
    var key := Fold(name);
    assert r'.catTags[..|r.catTags|] == r.catTags;
    if key !in r.registry {
      var tag := Tag(firstNewId + |r.newTags|, name);
      var pool := stored + r.newTags;
      var pool' := stored + r'.newTags;
      assert pool' == pool + [tag];
      forall i | 0 <= i < |pool'| ensures Fold(pool'[i].name) in r'.registry && r'.registry[Fold(pool'[i].name)] == pool'[i] {
        if i < |pool| {
          assert pool'[i] == pool[i];
          assert Fold(pool[i].name) in r.registry;
        }
      }
      forall k | k in r'.registry ensures r'.registry[k] in pool' && Fold(r'.registry[k].name) == k {
        if k != key {
          assert r.registry[k] in pool;
        }
      }
    }
  }

  /** All tokens of one item: the invariant is kept, the cat gets one tag
      per token, and the staged tags, the attached tags and the registry
      entries from before stay as they were. */
  lemma {:induction false} ResolveAllKeeps(r: Resolution, names: seq<string>, stored: seq<Tag>, firstNewId: int)
    requires ResolutionOk(r, stored, firstNewId)
    ensures var r' := ResolveAll(r, names, firstNewId);
      && ResolutionOk(r', stored, firstNewId)
      && |r.newTags| <= |r'.newTags| && r'.newTags[..|r.newTags|] == r.newTags
      && |r'.catTags| == |r.catTags| + |names|
      && r'.catTags[..|r.catTags|] == r.catTags
      && (forall key :: key in r.registry ==> key in r'.registry && r'.registry[key] == r.registry[key])
    decreases |names|
  {
    if |names| > 0 {
      var init := names[..|names| - 1];
      ResolveAllKeeps(r, init, stored, firstNewId);
      var m := ResolveAll(r, init, firstNewId);
      ResolveTagSpec(m, names[|names| - 1], stored, firstNewId);
      var r' := ResolveTag(m, names[|names| - 1], firstNewId);
      assert r'.catTags[..|r.catTags|] == r.catTags by {
        assert r'.catTags[..|m.catTags|] == m.catTags;
        assert m.catTags[..|r.catTags|] == r.catTags;
      }
      assert r'.newTags[..|r.newTags|] == r.newTags by {
        assert r'.newTags[..|m.newTags|] == m.newTags;
        assert m.newTags[..|r.newTags|] == r.newTags;
      }
    }
  }

  /** All tokens of one item: each attached tag is named like its token
      ignoring case, every token ends up filed, and every staged tag is
      named after one of the tokens. */
  lemma {:induction false} ResolveAllNames(r: Resolution, names: seq<string>, stored: seq<Tag>, firstNewId: int)
    requires ResolutionOk(r, stored, firstNewId)
    ensures var r' := ResolveAll(r, names, firstNewId);
      && |r'.catTags| == |r.catTags| + |names|
      && (forall k :: 0 <= k < |names| ==> Fold(r'.catTags[|r.catTags| + k].name) == Fold(names[k]))
      && (forall k :: 0 <= k < |names| ==> Fold(names[k]) in r'.registry)
      && (forall j :: |r.newTags| <= j < |r'.newTags| ==> r'.newTags[j].name in names)
    decreases |names|
  {
    ResolveAllKeeps(r, names, stored, firstNewId);
    if |names| > 0 {
      var init := names[..|names| - 1];
      ResolveAllKeeps(r, init, stored, firstNewId);
      ResolveAllNames(r, init, stored, firstNewId);
      NamesStep(r, ResolveAll(r, init, firstNewId), names, init, stored, firstNewId);
    }
  }

  /** The inductive step of ResolveAllNames, for the last token. */
  lemma NamesStep(r: Resolution, m: Resolution, names: seq<string>, init: seq<string>, stored: seq<Tag>, firstNewId: int)
    requires |names| > 0 && init == names[..|names| - 1] && ResolutionOk(m, stored, firstNewId)
    requires |m.catTags| == |r.catTags| + |names| - 1 && |r.newTags| <= |m.newTags|
    requires forall k :: 0 <= k < |names| - 1 ==> Fold(m.catTags[|r.catTags| + k].name) == Fold(init[k])
    requires forall k :: 0 <= k < |names| - 1 ==> Fold(init[k]) in m.registry
    requires forall j :: |r.newTags| <= j < |m.newTags| ==> m.newTags[j].name in init
    ensures var r' := ResolveTag(m, names[|names| - 1], firstNewId);
      && (forall k :: 0 <= k < |names| ==> Fold(r'.catTags[|r.catTags| + k].name) == Fold(names[k]))
      && (forall k :: 0 <= k < |names| ==> Fold(names[k]) in r'.registry)
      && (forall j :: |r.newTags| <= j < |r'.newTags| ==> r'.newTags[j].name in names)
  {
    var last := names[|names| - 1];
    ResolveTagSpec(m, last, stored, firstNewId);
    var r' := ResolveTag(m, last, firstNewId);
    forall k | 0 <= k < |names| ensures Fold(r'.catTags[|r.catTags| + k].name) == Fold(names[k]) {
      if k < |names| - 1 {
        assert r'.catTags[|r.catTags| + k] == m.catTags[|r.catTags| + k];
        assert init[k] == names[k];
      }
    }
    forall k | 0 <= k < |names| ensures Fold(names[k]) in r'.registry {
      if k < |names| - 1 {
        assert init[k] == names[k];
      }
    }
    forall j | |r.newTags| <= j < |r'.newTags| ensures r'.newTags[j].name in names {
      if j < |m.newTags| {
        assert r'.newTags[j] == m.newTags[j];
        assert m.newTags[j].name in init;
      }
    }
  }

  /** With stored keys below the provisional ones, the registry invariant
      makes the stored and staged names pairwise distinct ignoring case: no
      staged tag repeats a stored name or another staged name. */
  lemma NamesStayDistinct(r: Resolution, stored: seq<Tag>, firstNewId: int)
    requires ResolutionOk(r, stored, firstNewId)
    requires forall i :: 0 <= i < |stored| ==> stored[i].id < firstNewId
    requires forall i, j :: 0 <= i < j < |stored| ==> stored[i].id != stored[j].id
    ensures DistinctNames(stored + r.newTags)
  {
    var pool := stored + r.newTags;
    forall i, j | 0 <= i < j < |pool| ensures Fold(pool[i].name) != Fold(pool[j].name) {
      assert pool[i].id != pool[j].id;
    }
  }

  /** Tokens that are all known already, ignoring case, stage nothing and
      leave the registry as it was. */
  lemma {:induction false} ResolveAllKnown(r: Resolution, names: seq<string>, firstNewId: int)
    requires forall k :: 0 <= k < |names| ==> Fold(names[k]) in r.registry
    ensures ResolveAll(r, names, firstNewId).newTags == r.newTags
    ensures ResolveAll(r, names, firstNewId).registry == r.registry
    decreases |names|
  {
    if |names| > 0 {
      var init := names[..|names| - 1];
      assert forall k :: 0 <= k < |init| ==> init[k] == names[k];
      ResolveAllKnown(r, init, firstNewId);
    }
  }
}
