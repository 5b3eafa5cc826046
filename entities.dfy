/** The stored entities CatEntity and TagEntity, and the DataAnnotations rules
    that Validator.TryValidateObject(validateAllProperties: true) applies to a
    CatEntity. */
module Entities {
  import opened Text

  const IntMaxValue: int := 0x7FFF_FFFF

  /** A C# int. */
  type Int32 = x: int | -0x8000_0000 <= x <= IntMaxValue

  /** TagEntity {Id, Name}; its Created stamp and its Cats navigation are not
      modelled (the relation is kept on the cat side). */
  datatype Tag = Tag(id: int, name: string)

  /** CatEntity. `created` is the clock reading the entity was built with;
      `tags` is the cat's side of the many-to-many relation. */
  datatype Cat = Cat(
    id: int,
    catId: string,
    width: Int32,
    height: Int32,
    imagePath: string,
    created: int,
    tags: seq<Tag>)

  /** `new CatEntity { CatId = .., Width = .., Height = .., ImagePath = ..,
      Created = .. }`: Id keeps its default 0 until the store assigns one,
      and Tags starts as an empty list. */
  function NewCat(catId: string, width: Int32, height: Int32, imagePath: string, created: int): (c: Cat)
    ensures c.id == 0 && c.tags == []
    ensures c.catId == catId && c.width == width && c.height == height
    ensures c.imagePath == imagePath && c.created == created
  {
    Cat(0, catId, width, height, imagePath, created, [])
  }

  /** One failed attribute, in the order of the properties it guards. */
  datatype Violation =
    | CatIdRequired      // [Required] on CatId
    | WidthOutOfRange    // [Range(1, int.MaxValue)] on Width
    | HeightOutOfRange   // [Range(1, int.MaxValue)] on Height
    | ImagePathRequired  // [Required] on ImagePath
    | ImagePathNotUrl    // [Url] on ImagePath

  /** RequiredAttribute on a string (AllowEmptyStrings = false). */
  predicate Required(s: string) {
    !IsBlank(s)
  }

  /** RangeAttribute(1, int.MaxValue). */
  predicate InRange(x: int) {
    1 <= x <= IntMaxValue
  }

  /** UrlAttribute: the text starts with http://, https:// or ftp://,
      ignoring case. */
  predicate IsUrl(s: string) {
    StartsWithIgnoreCase(s, "http://") || StartsWithIgnoreCase(s, "https://") || StartsWithIgnoreCase(s, "ftp://")
  }

  /** The failures of one property: [Required] is checked first, and when it
      fails the other attributes of that property are not evaluated. */
  function ImagePathViolations(path: string): (r: seq<Violation>)
    ensures r == [] <==> Required(path) && IsUrl(path)
    ensures |r| <= 1
  {
    if !Required(path) then [ImagePathRequired]
    else if !IsUrl(path) then [ImagePathNotUrl]
    else []
  }

  /** The ValidationResults of a cat, one per failed property, in property
      order. Tags, Created and Id carry no attribute and play no part. */
  function Violations(c: Cat): seq<Violation> {
    (if Required(c.catId) then [] else [CatIdRequired])
    + (if InRange(c.width) then [] else [WidthOutOfRange])
    + (if InRange(c.height) then [] else [HeightOutOfRange])
    + ImagePathViolations(c.imagePath)
  }

  /** Each rule is reported exactly when it is broken. */
  lemma ViolationsSpec(c: Cat)
    ensures var r := Violations(c);
      && (CatIdRequired in r <==> IsBlank(c.catId))
      && (WidthOutOfRange in r <==> c.width < 1)
      && (HeightOutOfRange in r <==> c.height < 1)
      && (ImagePathRequired in r <==> IsBlank(c.imagePath))
      && (ImagePathNotUrl in r <==> !IsBlank(c.imagePath) && !IsUrl(c.imagePath))
  {
  }

  /** No result is reported twice. */
  lemma ViolationsDistinct(c: Cat)
    ensures var r := Violations(c);
      forall i, j :: 0 <= i < j < |r| ==> r[i] != r[j]
  {
  }

  /** Validator.TryValidateObject's verdict: no violation. */
  predicate IsValid(c: Cat) {
    Violations(c) == []
  }

  /** A cat is valid exactly when all four rules hold. */
  lemma ValidIffRules(c: Cat)
    ensures IsValid(c) <==>
      && !IsBlank(c.catId)
      && c.width >= 1
      && c.height >= 1
      && !IsBlank(c.imagePath) && IsUrl(c.imagePath)
  {
    var r := Violations(c);
    ViolationsSpec(c);
    if !IsValid(c) {
      assert r[0] in r;
    }
  }

  /** A cat that breaks only the CatId rule yields exactly one violation. */
  lemma OnlyCatIdBroken(c: Cat)
    requires IsBlank(c.catId) && c.width >= 1 && c.height >= 1
    requires !IsBlank(c.imagePath) && IsUrl(c.imagePath)
    ensures Violations(c) == [CatIdRequired]
  {
  }

  /** Validation looks at neither the tags nor the creation stamp nor the id. */
  lemma ViolationsIgnoreTagsAndStamps(c: Cat, id: int, created: int, tags: seq<Tag>)
    ensures Violations(c.(id := id, created := created, tags := tags)) == Violations(c)
  {
  }
}
