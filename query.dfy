/** CatsController: the two read endpoints, GET api/cats (a filtered,
    ordered page of cats) and GET api/cats/{id}, over the Cats table. */
module Query {
  import opened Wrappers
  import opened Text
  import opened Entities

  /** CatDTO: the cat as the API returns it, its tags reduced to their
      names. */
  datatype CatDto = CatDto(
    id: int,
    catId: string,
    width: Int32,
    height: Int32,
    imagePath: string,
    created: int,
    tags: seq<string>)

  /** GetCatsResponseDTO. */
  datatype GetCatsResponse = GetCatsResponse(total: int, page: int, pageSize: int, data: seq<CatDto>)

  /** The two messages of ErrorResponse400. */
  datatype QueryError =
    | InvalidPaging   // "Page and PageSize must be greater than 0"
    | TagTooLong      // "Tag parameter too long (max 50 chars)"

  datatype GetCatsResult = Ok(response: GetCatsResponse) | BadRequest(error: QueryError)

  /** 200 with the cat, or 404 with CatNotFoundResponse. */
  datatype GetCatResult = Found(cat: CatDto) | NotFound

  const MaxTagLength: nat := 50

  /** The `Select(c => new CatDTO { .. })` projection: every column copied
      unchanged, and the tag names in the cat's tag order. */
  function ToDto(c: Cat): (d: CatDto)
    ensures d.id == c.id && d.catId == c.catId && d.width == c.width && d.height == c.height
    ensures d.imagePath == c.imagePath && d.created == c.created
    ensures |d.tags| == |c.tags| && forall k :: 0 <= k < |c.tags| ==> d.tags[k] == c.tags[k].name
  {
    CatDto(c.id, c.catId, c.width, c.height, c.imagePath, c.created,
      seq(|c.tags|, k requires 0 <= k < |c.tags| => c.tags[k].name))
  }

  function ToDtos(cats: seq<Cat>): seq<CatDto> {
    seq(|cats|, i requires 0 <= i < |cats| => ToDto(cats[i]))
  }

  /** `c.Tags.Any(t => t.Name.ToLower() == tag.ToLower())`. */
  predicate HasTag(c: Cat, tag: string) {
    exists k :: 0 <= k < |c.tags| && Fold(c.tags[k].name) == Fold(tag)
  }

  /** The filter in force: none, or the tag to match. */
  predicate Matches(c: Cat, filter: Option<string>) {
    filter.None? || HasTag(c, filter.value)
  }

  /** `query.Where(..)`: the matching cats, in table order, each as often as
      it occurs. */
  function Filter(cats: seq<Cat>, filter: Option<string>): seq<Cat>
    decreases |cats|
  {
    if |cats| == 0 then []
    else
      (if Matches(cats[0], filter) then [cats[0]] else []) + Filter(cats[1..], filter)
  }

  /** The filter keeps every occurrence of a matching cat and nothing
      else. */
  lemma {:induction false} FilterCounts(cats: seq<Cat>, filter: Option<string>)
    ensures forall c :: multiset(Filter(cats, filter))[c] == if Matches(c, filter) then multiset(cats)[c] else 0
    decreases |cats|
  {
    if |cats| > 0 {
      FilterCounts(cats[1..], filter);
      assert cats == [cats[0]] + cats[1..];
    }
  }

  /** Ascending by Id. */
  predicate SortedById(xs: seq<Cat>) {
    forall i, j :: 0 <= i < j < |xs| ==> xs[i].id <= xs[j].id
  }

  /** Strictly ascending by Id. */
  predicate StrictlySortedById(xs: seq<Cat>) {
    forall i, j :: 0 <= i < j < |xs| ==> xs[i].id < xs[j].id
  }

  /** No two rows share an Id. */
  predicate UniqueIds(xs: seq<Cat>) {
    forall i, j :: 0 <= i < j < |xs| ==> xs[i].id != xs[j].id
  }

  /** Where the ordering puts `c` among rows already in order: after every
      row whose Id is not larger, before the first larger one. */
  function InsertPos(c: Cat, ys: seq<Cat>): (p: nat)
    ensures p <= |ys|
    ensures forall k :: 0 <= k < p ==> ys[k].id <= c.id
    ensures p < |ys| ==> c.id < ys[p].id
    decreases |ys|
  {
    if |ys| == 0 || c.id < ys[0].id then 0 else 1 + InsertPos(c, ys[1..])
  }

  /** One step of the ordering: `c` placed at InsertPos. */
  function InsertById(c: Cat, ys: seq<Cat>): (r: seq<Cat>)
    ensures |r| == |ys| + 1
    ensures multiset(r) == multiset(ys) + multiset{c}
  {
    var p := InsertPos(c, ys);
    assert ys == ys[..p] + ys[p..];
    ys[..p] + [c] + ys[p..]
  }

  /** Inserting into rows in order keeps them in order, strictly so when the
      new Id is not among them. */
  lemma InsertKeepsOrder(c: Cat, ys: seq<Cat>)
    requires SortedById(ys)
    ensures SortedById(InsertById(c, ys))
    ensures StrictlySortedById(ys) && (forall k :: 0 <= k < |ys| ==> ys[k].id != c.id) ==>
      StrictlySortedById(InsertById(c, ys))
  {
    var p := InsertPos(c, ys);
    PlacedInOrder(c, ys, p, ys[..p] + [c] + ys[p..]);
  }

  lemma PlacedInOrder(c: Cat, ys: seq<Cat>, p: nat, r: seq<Cat>)
    requires SortedById(ys) && p <= |ys| && r == ys[..p] + [c] + ys[p..]
    requires forall k :: 0 <= k < p ==> ys[k].id <= c.id
    requires p < |ys| ==> c.id < ys[p].id
    ensures SortedById(r)
    ensures StrictlySortedById(ys) && (forall k :: 0 <= k < |ys| ==> ys[k].id != c.id) ==> StrictlySortedById(r)
  {
    forall i, j | 0 <= i < j < |r| ensures r[i].id <= r[j].id {
      PlacedAt(c, ys, p, r, i);
      PlacedAt(c, ys, p, r, j);
    }
    if StrictlySortedById(ys) && (forall k :: 0 <= k < |ys| ==> ys[k].id != c.id) {
      forall i, j | 0 <= i < j < |r| ensures r[i].id < r[j].id {
        PlacedAt(c, ys, p, r, i);
        PlacedAt(c, ys, p, r, j);
      }
    }
  }

  lemma PlacedAt(c: Cat, ys: seq<Cat>, p: nat, r: seq<Cat>, i: int)
    requires p <= |ys| && r == ys[..p] + [c] + ys[p..] && 0 <= i < |r|
    ensures r[i] == if i < p then ys[i] else if i == p then c else ys[i - 1]
  {
  }

  /** `OrderBy(c => c.Id)`: the same rows, ascending by Id; strictly so when
      Ids are unique. */
  function SortById(xs: seq<Cat>): (r: seq<Cat>)
    ensures |r| == |xs|
    decreases |xs|
  {
    if |xs| == 0 then [] else InsertById(xs[0], SortById(xs[1..]))
  }

  /** The ordering keeps every row as often as it occurs, ascending by Id,
      strictly so when Ids are unique. */
  lemma SortByIdSpec(xs: seq<Cat>)
    ensures multiset(SortById(xs)) == multiset(xs)
    ensures SortedById(SortById(xs))
    ensures UniqueIds(xs) ==> StrictlySortedById(SortById(xs))
  {
    SortByIdKeepsRows(xs);
    SortByIdOrders(xs);
  }

  lemma {:induction false} SortByIdKeepsRows(xs: seq<Cat>)
    ensures multiset(SortById(xs)) == multiset(xs)
    decreases |xs|
  {
    if |xs| > 0 {
      SortByIdKeepsRows(xs[1..]);
      assert SortById(xs) == InsertById(xs[0], SortById(xs[1..]));
      assert xs == [xs[0]] + xs[1..];
    }
  }

  lemma {:induction false} SortByIdOrders(xs: seq<Cat>)
    ensures SortedById(SortById(xs))
    ensures UniqueIds(xs) ==> StrictlySortedById(SortById(xs))
    decreases |xs|
  {
    if |xs| > 0 {
      var rest := SortById(xs[1..]);
      SortByIdOrders(xs[1..]);
      InsertKeepsOrder(xs[0], rest);
      if UniqueIds(xs) {
        SortByIdKeepsRows(xs[1..]);
        TailIdsDiffer(xs, rest);
      }
    }
  }

  /** With unique Ids, the head's Id is not among the rows of any
      rearrangement of the tail. */
  lemma TailIdsDiffer(xs: seq<Cat>, rest: seq<Cat>)
    requires |xs| > 0 && UniqueIds(xs) && multiset(rest) == multiset(xs[1..])
    ensures forall k :: 0 <= k < |rest| ==> rest[k].id != xs[0].id
    ensures UniqueIds(xs[1..])
  {
    var tail := xs[1..];
    forall k | 0 <= k < |rest| ensures rest[k].id != xs[0].id {
      assert rest[k] in multiset(tail);
      var j :| 0 <= j < |tail| && tail[j] == rest[k];
      assert tail[j] == xs[j + 1];
    }
    forall i, j | 0 <= i < j < |tail| ensures tail[i].id != tail[j].id {
      assert tail[i] == xs[i + 1] && tail[j] == xs[j + 1];
    }
  }

  /** `Skip(n)`. */
  function Skip(xs: seq<Cat>, n: int): seq<Cat> {
    if n <= 0 then xs else if n >= |xs| then [] else xs[n..]
  }

  /** `Take(n)`. */
  function Take(xs: seq<Cat>, n: int): seq<Cat> {
    if n <= 0 then [] else if n >= |xs| then xs else xs[..n]
  }

  /** The number of rows before page `page`, (page - 1) * pageSize, as
      repeated addition so that proofs about pages stay linear. */
  function Offset(page: int, pageSize: int): (o: int)
    requires page >= 1 && pageSize >= 0
    ensures o >= 0
    decreases page
  {
    if page == 1 then 0 else Offset(page - 1, pageSize) + pageSize
  }

  /** Offset is the product the controller computes. */
  lemma {:induction false} OffsetIsProduct(page: int, pageSize: int)
    requires page >= 1 && pageSize >= 0
    ensures Offset(page, pageSize) == (page - 1) * pageSize
    decreases page
  {
    if page > 1 {
      OffsetIsProduct(page - 1, pageSize);
    }
  }

  /** A later page starts at least one page after an earlier one. */
  lemma {:induction false} OffsetGrows(p: int, q: int, pageSize: int)
    requires 1 <= p < q && pageSize >= 0
    ensures Offset(p, pageSize) + pageSize <= Offset(q, pageSize)
    decreases q
  {
    if p < q - 1 {
      OffsetGrows(p, q - 1, pageSize);
    }
  }

  /** Row i sits on page i / pageSize + 1, at position i % pageSize. */
  lemma OffsetOfIndex(i: nat, pageSize: int)
    requires pageSize >= 1
    ensures i / pageSize >= 0 && 0 <= i % pageSize < pageSize
    ensures Offset(i / pageSize + 1, pageSize) + i % pageSize == i
  {
    OffsetIsProduct(i / pageSize + 1, pageSize);
  }

  function Min(a: int, b: int): int {
    if a <= b then a else b
  }

  /** `Skip((page - 1) * pageSize).Take(pageSize)`: the page holds the rows
      from Offset(page, pageSize) on, pageSize of them or what is left. */
  function Page(xs: seq<Cat>, page: int, pageSize: int): (r: seq<Cat>)
    requires page >= 1 && pageSize >= 1
    ensures |r| <= pageSize
    ensures |r| == if Offset(page, pageSize) >= |xs| then 0 else Min(pageSize, |xs| - Offset(page, pageSize))
    ensures forall k :: 0 <= k < |r| ==> r[k] == xs[Offset(page, pageSize) + k]
  {
    Take(Skip(xs, Offset(page, pageSize)), pageSize)
  }

  /** The filter the request asks for: none for a null, empty or blank tag,
      the trimmed tag otherwise. */
  function RequestedFilter(tag: Option<string>): (f: Option<string>)
    ensures f.None? <==> IsNullOrWhiteSpace(tag)
    ensures f.Some? ==> f.value == Trim(tag.value) && f.value != [] && IsTrimmed(f.value)
  {
    if IsNullOrWhiteSpace(tag) then None else Some(Trim(tag.value))
  }

  /** The matching cats in the order GetCats lists them. */
  function Listing(cats: seq<Cat>, filter: Option<string>): seq<Cat> {
    SortById(Filter(cats, filter))
  }

  /** GetCats. The guards come first, paging before the tag; `total` counts
      every matching cat whatever the page; `data` is at most one page. */
  function GetCats(cats: seq<Cat>, tag: Option<string>, page: int, pageSize: int): (r: GetCatsResult)
    ensures r == BadRequest(InvalidPaging) <==> page <= 0 || pageSize <= 0
    ensures r == BadRequest(TagTooLong) <==>
      page > 0 && pageSize > 0 && !IsNullOrWhiteSpace(tag) && Utf16Length(Trim(tag.value)) > MaxTagLength
    ensures r.Ok? ==>
      && r.response.page == page && r.response.pageSize == pageSize
      && r.response.total == |Filter(cats, RequestedFilter(tag))|
      && |r.response.data| <= pageSize
  {
    if page <= 0 || pageSize <= 0 then BadRequest(InvalidPaging)
    else
      var f := RequestedFilter(tag);
      if f.Some? && Utf16Length(f.value) > MaxTagLength then BadRequest(TagTooLong)
      else Ok(Answer(cats, f, page, pageSize))
  }

  /** The 200 answer for a filter: the count of matching rows and the
      requested page of the listing, projected. */
  function Answer(cats: seq<Cat>, f: Option<string>, page: int, pageSize: int): (a: GetCatsResponse)
    requires page >= 1 && pageSize >= 1
    ensures a.total == |Filter(cats, f)| && a.page == page && a.pageSize == pageSize
    ensures |a.data| <= pageSize
    ensures |a.data| == if Offset(page, pageSize) >= |Listing(cats, f)| then 0
                        else Min(pageSize, |Listing(cats, f)| - Offset(page, pageSize))
    ensures forall k :: 0 <= k < |a.data| ==>
      Offset(page, pageSize) + k < |Listing(cats, f)| && a.data[k] == ToDto(Listing(cats, f)[Offset(page, pageSize) + k])
  {
    GetCatsResponse(|Filter(cats, f)|, page, pageSize, ToDtos(Page(Listing(cats, f), page, pageSize)))
  }

  /** The listing holds every matching cat as often as the table does and
      nothing else, ascending by Id, strictly so when Ids are unique. */
  lemma ListingSpec(cats: seq<Cat>, filter: Option<string>)
    ensures forall c :: multiset(Listing(cats, filter))[c] == if Matches(c, filter) then multiset(cats)[c] else 0
    ensures |Listing(cats, filter)| == |Filter(cats, filter)|
    ensures SortedById(Listing(cats, filter))
    ensures UniqueIds(cats) ==> StrictlySortedById(Listing(cats, filter))
  {
    FilterCounts(cats, filter);
    SortByIdSpec(Filter(cats, filter));
    ListingOrder(cats, filter);
    ListingLength(cats, filter);
  }

  /** The listing is ascending by Id, strictly so when Ids are unique. */
  lemma ListingOrder(cats: seq<Cat>, filter: Option<string>)
    ensures SortedById(Listing(cats, filter))
    ensures UniqueIds(cats) ==> StrictlySortedById(Listing(cats, filter))
  {
    SortByIdSpec(Filter(cats, filter));
    FilterKeepsUniqueIds(cats, filter);
  }

  /** Ordering keeps the number of matching rows. */
  lemma ListingLength(cats: seq<Cat>, filter: Option<string>)
    ensures |Listing(cats, filter)| == |Filter(cats, filter)|
  {
    var xs := Filter(cats, filter);
    SortByIdSpec(xs);
    assert |multiset(SortById(xs))| == |multiset(xs)|;
  }

  /** Every row of the listing is a matching row of the table. */
  lemma ListingMembers(cats: seq<Cat>, filter: Option<string>)
    ensures forall j :: 0 <= j < |Listing(cats, filter)| ==>
      Listing(cats, filter)[j] in cats && Matches(Listing(cats, filter)[j], filter)
  {
    var listing := Listing(cats, filter);
    SortByIdSpec(Filter(cats, filter));
    FilterCounts(cats, filter);
    forall j | 0 <= j < |listing| ensures listing[j] in cats && Matches(listing[j], filter) {
      assert listing[j] in multiset(listing);
      assert listing[j] in multiset(Filter(cats, filter));
    }
  }

  /** Item k of an answered page is the listing's row Offset + k, projected. */
  lemma GetCatsItem(cats: seq<Cat>, tag: Option<string>, page: int, pageSize: int, k: int)
    requires GetCats(cats, tag, page, pageSize).Ok?
    requires 0 <= k < |GetCats(cats, tag, page, pageSize).response.data|
    ensures page >= 1 && pageSize >= 1
    ensures Offset(page, pageSize) + k < |Listing(cats, RequestedFilter(tag))|
    ensures GetCats(cats, tag, page, pageSize).response.data[k]
         == ToDto(Listing(cats, RequestedFilter(tag))[Offset(page, pageSize) + k])
  {
  }

  /** Every listed cat is a matching cat of the table, projected. */
  lemma GetCatsListsMatches(cats: seq<Cat>, tag: Option<string>, page: int, pageSize: int)
    requires GetCats(cats, tag, page, pageSize).Ok?
    ensures var data := GetCats(cats, tag, page, pageSize).response.data;
      forall k :: 0 <= k < |data| ==>
        exists i :: 0 <= i < |cats| && Matches(cats[i], RequestedFilter(tag)) && data[k] == ToDto(cats[i])
  {
    var f := RequestedFilter(tag);
    var listing := Listing(cats, f);
    ListingMembers(cats, f);
    var data := GetCats(cats, tag, page, pageSize).response.data;
    forall k | 0 <= k < |data|
      ensures exists i :: 0 <= i < |cats| && Matches(cats[i], f) && data[k] == ToDto(cats[i])
    {
      GetCatsItem(cats, tag, page, pageSize, k);
      var c := listing[Offset(page, pageSize) + k];
      var i :| 0 <= i < |cats| && cats[i] == c;
    }
  }

  /** With unique Ids, a page lists strictly ascending Ids. */
  lemma GetCatsIdsIncrease(cats: seq<Cat>, tag: Option<string>, page: int, pageSize: int)
    requires GetCats(cats, tag, page, pageSize).Ok? && UniqueIds(cats)
    ensures var data := GetCats(cats, tag, page, pageSize).response.data;
      forall i, j :: 0 <= i < j < |data| ==> data[i].id < data[j].id
  {
    ListingOrder(cats, RequestedFilter(tag));
    var data := GetCats(cats, tag, page, pageSize).response.data;
    forall i, j | 0 <= i < j < |data| ensures data[i].id < data[j].id {
      GetCatsItem(cats, tag, page, pageSize, i);
      GetCatsItem(cats, tag, page, pageSize, j);
    }
  }

  /** Paging loses nothing: the i-th matching cat, in Id order, is listed on
      page i / pageSize + 1 at position i % pageSize. */
  lemma GetCatsPagesCover(cats: seq<Cat>, tag: Option<string>, pageSize: int, i: int)
    requires pageSize > 0
    requires GetCats(cats, tag, 1, pageSize).Ok?
    requires 0 <= i < GetCats(cats, tag, 1, pageSize).response.total
    ensures var r := GetCats(cats, tag, i / pageSize + 1, pageSize);
      && r.Ok?
      && i % pageSize < |r.response.data|
      && r.response.data[i % pageSize] == ToDto(Listing(cats, RequestedFilter(tag))[i])
  {
    OffsetOfIndex(i, pageSize);
    CoverAt(cats, tag, pageSize, i, i / pageSize + 1, i % pageSize);
  }

  /** The i-th row of the listing is item k of page `page` when the page
      starts k rows before it. */
  lemma CoverAt(cats: seq<Cat>, tag: Option<string>, pageSize: int, i: int, page: int, k: int)
    requires pageSize > 0 && page >= 1 && 0 <= k < pageSize && Offset(page, pageSize) + k == i
    requires GetCats(cats, tag, 1, pageSize).Ok?
    requires 0 <= i < GetCats(cats, tag, 1, pageSize).response.total
    ensures var r := GetCats(cats, tag, page, pageSize);
      && r.Ok?
      && k < |r.response.data|
      && r.response.data[k] == ToDto(Listing(cats, RequestedFilter(tag))[i])
  {
    ListingLength(cats, RequestedFilter(tag));
    PageHolds(cats, tag, page, pageSize, k);
  }

  lemma PageHolds(cats: seq<Cat>, tag: Option<string>, page: int, pageSize: int, k: int)
    requires page >= 1 && 0 <= k < pageSize
    requires GetCats(cats, tag, 1, pageSize).Ok?
    requires Offset(page, pageSize) + k < |Listing(cats, RequestedFilter(tag))|
    ensures var r := GetCats(cats, tag, page, pageSize);
      && r.Ok?
      && k < |r.response.data|
      && r.response.data[k] == ToDto(Listing(cats, RequestedFilter(tag))[Offset(page, pageSize) + k])
  {
    GetCatsItem(cats, tag, page, pageSize, k);
  }

  /** With unique Ids, every cat of a later page has a larger Id than every
      cat of an earlier one, so no cat is listed on two pages. */
  lemma GetCatsPagesDisjoint(cats: seq<Cat>, tag: Option<string>, p: int, q: int, pageSize: int)
    requires UniqueIds(cats) && 1 <= p < q
    requires GetCats(cats, tag, p, pageSize).Ok?
    ensures var a := GetCats(cats, tag, p, pageSize).response.data;
      var b := GetCats(cats, tag, q, pageSize).response.data;
      forall i, j :: 0 <= i < |a| && 0 <= j < |b| ==> a[i].id < b[j].id
  {
    var a := GetCats(cats, tag, p, pageSize).response.data;
    var b := GetCats(cats, tag, q, pageSize).response.data;
    forall i, j | 0 <= i < |a| && 0 <= j < |b| ensures a[i].id < b[j].id {
      ItemsOrdered(cats, tag, p, q, pageSize, i, j);
    }
  }

  lemma ItemsOrdered(cats: seq<Cat>, tag: Option<string>, p: int, q: int, pageSize: int, i: int, j: int)
    requires UniqueIds(cats) && 1 <= p < q
    requires GetCats(cats, tag, p, pageSize).Ok? && 0 <= i < |GetCats(cats, tag, p, pageSize).response.data|
    requires 0 <= j < |GetCats(cats, tag, q, pageSize).response.data|
    ensures GetCats(cats, tag, p, pageSize).response.data[i].id < GetCats(cats, tag, q, pageSize).response.data[j].id
  {
    ListingOrder(cats, RequestedFilter(tag));
    OffsetGrows(p, q, pageSize);
    GetCatsItem(cats, tag, p, pageSize, i);
    GetCatsItem(cats, tag, q, pageSize, j);
  }

  /** `total` depends on the table and the tag only. */
  lemma TotalIgnoresPaging(cats: seq<Cat>, tag: Option<string>, p1: int, s1: int, p2: int, s2: int)
    requires GetCats(cats, tag, p1, s1).Ok? && GetCats(cats, tag, p2, s2).Ok?
    ensures GetCats(cats, tag, p1, s1).response.total == GetCats(cats, tag, p2, s2).response.total
  {
  }

  /** A null, empty or blank tag lists the same as no tag at all. */
  lemma BlankTagIsNoFilter(cats: seq<Cat>, tag: Option<string>, page: int, pageSize: int)
    requires IsNullOrWhiteSpace(tag)
    ensures GetCats(cats, tag, page, pageSize) == GetCats(cats, None, page, pageSize)
  {
  }

  /** Two tags that agree once trimmed and case-folded give the same
      answer. */
  lemma TagIgnoresCaseAndSpaces(cats: seq<Cat>, a: string, b: string, page: int, pageSize: int)
    requires Fold(Trim(a)) == Fold(Trim(b))
    ensures GetCats(cats, Some(a), page, pageSize) == GetCats(cats, Some(b), page, pageSize)
  {
    FiltersAgree(cats, a, b);
  }

  /** Tags equal up to case and surrounding white space ask for filters of
      the same length, in characters and in UTF-16 code units, that keep the
      same rows. */
  lemma FiltersAgree(cats: seq<Cat>, a: string, b: string)
    requires Fold(Trim(a)) == Fold(Trim(b))
    ensures var fa, fb := RequestedFilter(Some(a)), RequestedFilter(Some(b));
      && fa.None? == fb.None?
      && (fa.Some? ==> |fa.value| == |fb.value| && Filter(cats, fa) == Filter(cats, fb))
      && (fa.Some? ==> Utf16Length(fa.value) == Utf16Length(fb.value))
  {
    assert |Trim(a)| == |Fold(Trim(a))| == |Trim(b)|;
    FoldKeepsUtf16Length(Trim(a));
    FoldKeepsUtf16Length(Trim(b));
    if !IsBlank(a) && !IsBlank(b) {
      FilterSameFold(cats, Trim(a), Trim(b));
    }
  }

  /** The filter sees the tag only through its fold. */
  lemma {:induction false} FilterSameFold(cats: seq<Cat>, x: string, y: string)
    requires Fold(x) == Fold(y)
    ensures Filter(cats, Some(x)) == Filter(cats, Some(y))
    decreases |cats|
  {
    if |cats| > 0 {
      FilterSameFold(cats[1..], x, y);
      assert HasTag(cats[0], x) == HasTag(cats[0], y);
    }
  }

  /** A tag that no cat has is not an error: total 0 and an empty page. */
  lemma NoMatchIsEmptyPage(cats: seq<Cat>, tag: Option<string>, page: int, pageSize: int)
    requires GetCats(cats, tag, page, pageSize).Ok?
    requires forall i :: 0 <= i < |cats| ==> !Matches(cats[i], RequestedFilter(tag))
    ensures GetCats(cats, tag, page, pageSize).response.total == 0
    ensures GetCats(cats, tag, page, pageSize).response.data == []
  {
    FilterNone(cats, RequestedFilter(tag));
    ListingLength(cats, RequestedFilter(tag));
  }

  /** Nothing passes a filter no row matches. */
  lemma {:induction false} FilterNone(cats: seq<Cat>, filter: Option<string>)
    requires forall i :: 0 <= i < |cats| ==> !Matches(cats[i], filter)
    ensures Filter(cats, filter) == []
    decreases |cats|
  {
    if |cats| > 0 {
      assert forall i :: 0 <= i < |cats| - 1 ==> cats[1..][i] == cats[i + 1];
      FilterNone(cats[1..], filter);
    }
  }

  /** Filtering keeps Ids unique. */
  lemma {:induction false} FilterKeepsUniqueIds(cats: seq<Cat>, filter: Option<string>)
    ensures UniqueIds(cats) ==> UniqueIds(Filter(cats, filter))
    decreases |cats|
  {
    if |cats| > 0 && UniqueIds(cats) {
      var tail := cats[1..];
      assert UniqueIds(tail) by {
        forall i, j | 0 <= i < j < |tail| ensures tail[i].id != tail[j].id {
          assert tail[i] == cats[i + 1] && tail[j] == cats[j + 1];
        }
      }
      FilterKeepsUniqueIds(tail, filter);
      FilterCounts(tail, filter);
      var rest := Filter(tail, filter);
      forall k | 0 <= k < |rest| ensures rest[k].id != cats[0].id {
        assert rest[k] in multiset(rest);
        assert rest[k] in multiset(tail);
        var j :| 0 <= j < |tail| && tail[j] == rest[k];
        assert tail[j] == cats[j + 1];
      }
    }
  }

  /** GetCatById: the first row whose Id is `id`, projected, or NotFound
      when there is none. */
  function GetCatById(cats: seq<Cat>, id: int): (r: GetCatResult)
    ensures r.NotFound? <==> forall i :: 0 <= i < |cats| ==> cats[i].id != id
    ensures r.Found? ==> exists i :: 0 <= i < |cats| && cats[i].id == id && r.cat == ToDto(cats[i])
    decreases |cats|
  {
    if |cats| == 0 then NotFound
    else if cats[0].id == id then Found(ToDto(cats[0]))
    else
      var r := GetCatById(cats[1..], id);
      assert forall i :: 1 <= i < |cats| ==> cats[i] == cats[1..][i - 1];
      r
  }
}
