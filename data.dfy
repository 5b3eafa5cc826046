/** The relational store behind DBContext: the Cats and Tags tables, the
    identity counters that assign primary keys, the unique index on
    CatEntity.CatId and the many-to-many link between cats and tags. */
module Data {
  import opened Wrappers
  import opened Entities

  /** The contents of the store. `nextCatId` and `nextTagId` are the next
      values of the two identity columns. */
  datatype StoreState = StoreState(cats: seq<Cat>, tags: seq<Tag>, nextCatId: int, nextTagId: int)

  /** `db.Cats.Select(c => c.CatId)` as a set. */
  function CatIds(cats: seq<Cat>): (r: set<string>)
    ensures forall i :: 0 <= i < |cats| ==> cats[i].catId in r
    ensures forall x :: x in r ==> exists i :: 0 <= i < |cats| && cats[i].catId == x
  {
    set i | 0 <= i < |cats| :: cats[i].catId
  }

  /** The unique index on CatId holds. */
  predicate UniqueCatIds(cats: seq<Cat>) {
    forall i, j :: 0 <= i < j < |cats| ==> cats[i].catId != cats[j].catId
  }

  /** Primary keys handed out by an identity column: positive, below the
      next value, increasing in insertion order. */
  predicate CatKeysIssued(cats: seq<Cat>, next: int) {
    && (forall i :: 0 <= i < |cats| ==> 1 <= cats[i].id < next)
    && (forall i, j :: 0 <= i < j < |cats| ==> cats[i].id < cats[j].id)
  }

  predicate TagKeysIssued(tags: seq<Tag>, next: int) {
    && (forall i :: 0 <= i < |tags| ==> 1 <= tags[i].id < next)
    && (forall i, j :: 0 <= i < j < |tags| ==> tags[i].id < tags[j].id)
  }

  /** The join table: (cat Id, tag Id) pairs, one for every tag of every
      cat and no other. */
  function Links(cats: seq<Cat>): (r: set<(int, int)>)
    ensures forall i, k :: 0 <= i < |cats| && 0 <= k < |cats[i].tags| ==> (cats[i].id, cats[i].tags[k].id) in r
    ensures forall p :: p in r ==>
      exists i, k :: 0 <= i < |cats| && 0 <= k < |cats[i].tags| && p == (cats[i].id, cats[i].tags[k].id)
  {
    set i, k | 0 <= i < |cats| && 0 <= k < |cats[i].tags| :: (cats[i].id, cats[i].tags[k].id)
  }

  /** What the schema guarantees of every committed state: the unique index
      on CatId, issued keys, and links that point at stored tags. */
  predicate StoreValid(s: StoreState) {
    && 1 <= s.nextCatId && 1 <= s.nextTagId
    && UniqueCatIds(s.cats)
    && CatKeysIssued(s.cats, s.nextCatId)
    && TagKeysIssued(s.tags, s.nextTagId)
    && (forall i, k :: 0 <= i < |s.cats| && 0 <= k < |s.cats[i].tags| ==> s.cats[i].tags[k] in s.tags)
  }

  /** The identity column numbers inserted rows from `first` on. */
  function Numbered(cats: seq<Cat>, first: int): (r: seq<Cat>)
    ensures |r| == |cats|
    ensures forall k :: 0 <= k < |r| ==> r[k] == cats[k].(id := first + k)
  {
    seq(|cats|, k requires 0 <= k < |cats| => cats[k].(id := first + k))
  }

  /** SaveChanges after AddRange(newCats) and AddRange(newTags), as one
      transaction: it fails, changing nothing, when the unique index on CatId
      would be broken; otherwise both tables grow by the added rows, in order,
      and every row already stored stays as it was. */
  function Commit(s: StoreState, newCats: seq<Cat>, newTags: seq<Tag>): (r: Option<StoreState>)
    ensures r.None? <==> !UniqueCatIds(s.cats + newCats)
    ensures r.Some? ==>
      && |r.value.cats| == |s.cats| + |newCats| && r.value.cats[..|s.cats|] == s.cats
      && r.value.tags == s.tags + newTags
      && (forall k :: 0 <= k < |newCats| ==> r.value.cats[|s.cats| + k] == newCats[k].(id := s.nextCatId + k))
      && r.value.nextCatId == s.nextCatId + |newCats|
      && r.value.nextTagId == s.nextTagId + |newTags|
  {
    if UniqueCatIds(s.cats + newCats) then
      var cats := s.cats + Numbered(newCats, s.nextCatId);
      assert cats[..|s.cats|] == s.cats;
      Some(StoreState(cats, s.tags + newTags, s.nextCatId + |newCats|, s.nextTagId + |newTags|))
    else
      None
  }

  /** A commit keeps the store valid when the added tags carry the keys the
      identity column will give them and the added cats link only to stored
      or added tags; the links of stored cats are kept. */
  lemma CommitKeepsValid(s: StoreState, newCats: seq<Cat>, newTags: seq<Tag>)
    requires StoreValid(s)
    requires forall k :: 0 <= k < |newTags| ==> newTags[k].id == s.nextTagId + k
    requires forall i, k :: 0 <= i < |newCats| && 0 <= k < |newCats[i].tags| ==> newCats[i].tags[k] in s.tags + newTags
    ensures Commit(s, newCats, newTags).Some? ==>
      var t := Commit(s, newCats, newTags).value;
      StoreValid(t) && Links(s.cats) <= Links(t.cats)
  {
    var r := Commit(s, newCats, newTags);
    if r.Some? {
      var t := r.value;
      CommittedCatsUnique(s.cats, newCats, t.cats);
      CommittedCatKeys(s, newCats, t.cats);
      CommittedTagKeys(s, newTags);
      forall i, k | 0 <= i < |t.cats| && 0 <= k < |t.cats[i].tags| ensures t.cats[i].tags[k] in t.tags {
        if i >= |s.cats| {
          assert t.cats[i].tags == newCats[i - |s.cats|].tags;
        } else {
          assert t.cats[i] == s.cats[i];
        }
      }
      forall p | p in Links(s.cats) ensures p in Links(t.cats) {
        var i, k :| 0 <= i < |s.cats| && 0 <= k < |s.cats[i].tags| && p == (s.cats[i].id, s.cats[i].tags[k].id);
        assert t.cats[i] == s.cats[i];
      }
    }
  }

  lemma CommittedCatsUnique(old_: seq<Cat>, added: seq<Cat>, cats: seq<Cat>)
    requires UniqueCatIds(old_ + added)
    requires |cats| == |old_| + |added|
    requires forall i :: 0 <= i < |cats| ==> cats[i].catId == (old_ + added)[i].catId
    ensures UniqueCatIds(cats)
  {
  }

  lemma CommittedCatKeys(s: StoreState, added: seq<Cat>, cats: seq<Cat>)
    requires StoreValid(s)
    requires |cats| == |s.cats| + |added| && cats[..|s.cats|] == s.cats
    requires forall k :: 0 <= k < |added| ==> cats[|s.cats| + k] == added[k].(id := s.nextCatId + k)
    ensures CatKeysIssued(cats, s.nextCatId + |added|)
  {
    var n := |s.cats|;
    assert forall i :: 0 <= i < n ==> cats[i] == s.cats[i];
    forall i | n <= i < |cats| ensures cats[i].id == s.nextCatId + (i - n) {
      assert cats[n + (i - n)] == added[i - n].(id := s.nextCatId + (i - n));
    }
  }

  lemma CommittedTagKeys(s: StoreState, added: seq<Tag>)
    requires StoreValid(s)
    requires forall k :: 0 <= k < |added| ==> added[k].id == s.nextTagId + k
    ensures TagKeysIssued(s.tags + added, s.nextTagId + |added|)
  {
    var t := s.tags + added;
    var n := |s.tags|;
    assert forall i :: n <= i < |t| ==> t[i].id == s.nextTagId + (i - n);
    assert forall i :: 0 <= i < n ==> t[i] == s.tags[i];
  }

  /** DBContext: the Cats and Tags sets and the unit of work that saves what
      was added to them. */
  class DbContext {
    var cats: seq<Cat>
    var tags: seq<Tag>
    var nextCatId: int
    var nextTagId: int

    function Snapshot(): StoreState
      reads this
    {
      StoreState(cats, tags, nextCatId, nextTagId)
    }

    ghost predicate Valid()
      reads this
    {
      StoreValid(Snapshot())
    }

    /** The state of a new deployment: both tables empty, both identity
        columns starting at 1. */
    constructor ()
      ensures Valid() && Snapshot() == StoreState([], [], 1, 1)
    {
      cats, tags := [], [];
      nextCatId, nextTagId := 1, 1;
    }

    /** SaveChangesAsync: all or nothing; `ok` is false (the
        DbUpdateException) exactly when the unique index on CatId rejects the
        added cats. The store stays valid when the added tags carry the keys
        the identity column will give them and the added cats link only to
        stored or added tags. */
    method SaveChanges(addedCats: seq<Cat>, addedTags: seq<Tag>) returns (ok: bool)
      requires Valid()
      requires forall k :: 0 <= k < |addedTags| ==> addedTags[k].id == nextTagId + k
      requires forall i, k :: 0 <= i < |addedCats| && 0 <= k < |addedCats[i].tags| ==> addedCats[i].tags[k] in tags + addedTags
      modifies this
      ensures Valid()
      ensures ok <==> Commit(old(Snapshot()), addedCats, addedTags).Some?
      ensures ok ==> Snapshot() == Commit(old(Snapshot()), addedCats, addedTags).value
      ensures !ok ==> Snapshot() == old(Snapshot())
    {
      CommitKeepsValid(Snapshot(), addedCats, addedTags);
      if !UniqueCatIds(cats + addedCats) {
        return false;
      }
      cats := cats + Numbered(addedCats, nextCatId);
      tags := tags + addedTags;
      nextCatId := nextCatId + |addedCats|;
      nextTagId := nextTagId + |addedTags|;
      ok := true;
    }
  }
}
