# StealAllTheCats in Dafny

A model of the core of StealAllTheCats, an ASP.NET service that collects cat
pictures from the cat API and serves them back with their temperament tags.
The model covers three parts, with proofs of what each guarantees:

- **The fetch job.** `CatFetcherJob.FetchAndStoreCatsAsync` runs these steps in order:
  - the two configuration guards;
  - the request;
  - the loop over the API's results, which skips known CatIds, splits the first breed's temperament into tags, resolves the tags case-insensitively against the stored and staged ones, validates the new cat, and then logs or stages it;
  - the single all-or-nothing save.
- **The entity rules.** The DataAnnotations on `CatEntity` (`Required`, `Range`, `Url`), as `Validator.TryValidateObject` applies them, and the entity's defaults.
- **The read endpoints.** `CatsController.GetCats` handles paging guards, the trimmed tag filter with its bound of 50 UTF-16 code units, matching that ignores case, the total count, ordering by Id, and `Skip`/`Take`. `CatsController.GetCatById` finds a cat and projects it to its DTO.

Files and modules:

| file | module | contents |
|---|---|---|
| text.dfy | `Wrappers`, `Text` | `Option`; .NET white space, `Trim`, `Split` with `TrimEntries \| RemoveEmptyEntries`, the case fold |
| entities.dfy | `Entities` | `Cat`, `Tag`, `Int32`, `NewCat`, the violation list and validity |
| data.dfy | `Data` | the store (Cats, Tags, identity counters, unique index on CatId, links), `Commit`, class `DbContext` |
| registry.dfy | `TagRegistry` | the case-insensitive tag dictionary: seeding with `ToDictionary`, and resolving tokens |
| ingestion.dfy | `Ingestion` | one run as a function `Run` of configuration, API answer, store and clock |
| ingestion_props.dfy | `IngestionProperties` | reference definitions `Accepted` and `Rejections`, the loop invariant, and lemmas about one step and the whole loop |
| run_props.dfy | `RunProperties` | what a whole run guarantees: saved cats, log, save failure, tags of rejected cats, reruns |
| fetcher_job.dfy | `FetcherJob` | class `CatFetcherJob`: the job as imperative code over a `DbContext`, proved equal to `Run` |
| query.dfy | `Query` | `GetCats` and `GetCatById` as functions over the table of cats, and their properties |
| query_examples.dfy | `QueryExamples` | the two scenarios of the controller's tests, worked out |

The fetch job is modelled twice:
- `FetcherJob.CatFetcherJob.FetchAndStoreCats` follows the source statement by statement. It has `foreach` loops with `continue`, a dictionary and lists updated in place, and `SaveChanges` on the `DbContext` object.
- Its `ensures` ties the outcome and the new store to the function `Ingestion.Run`. Every property of a run is proved about that function.

Inputs and outside effects are handled as follows:
- The HTTP exchange and JSON decoding become the input `HttpResult`: a failure, or the decoded list, with `None` for a JSON `null`.
- The clock becomes the parameter `now`.
- Exceptions become `Failed` outcomes that say which exception ended the run.
- The error log becomes the list of `LogEntry` a run carries.

Three behaviours of the code are stated outright:
- **A CatId repeated within one fetch.** Staged CatIds never join the skip set, so the cat is staged twice and the unique index on CatId fails the whole save (`RunProperties.RepeatedFreshItemFailsSave`).
- **Tags of a rejected cat.** Tags are resolved before validation, so the new tags of a rejected cat stay staged and are saved with the rest (`RunProperties.CompletedRunFilesEveryToken`).
- **A CatId already stored at insert.** `SaveChangesAsync` throws and the job rethrows, which is `Failed(SaveFailed, ..)` here (`RunProperties.SaveFailsIffRepeatedCatId`).

## Model

| member | source | states |
|---|---|---|
| Text.IsWhiteSpace | StealAllTheCats/Services/CatFetcherJob.cs:90 | definition of `char.IsWhiteSpace`: the controls U+0009 to U+000D and U+0085, and the Unicode space, line and paragraph separators |
| Text.IsNullOrWhiteSpace | StealAllTheCats/Services/CatFetcherJob.cs:30 | definition of `string.IsNullOrWhiteSpace`: null, empty, or white space only |
| Text.SkipBlanks | StealAllTheCats/Controllers/CatsController.cs:112 | the scan from the left passes only white space and stops at the first character that is not white space, or at the end |
| Text.SkipBlanksBack | StealAllTheCats/Controllers/CatsController.cs:112 | the scan from the right passes only white space and stops just after the last character that is not white space, or at its lower bound |
| Text.Trim | StealAllTheCats/Controllers/CatsController.cs:112 | `string.Trim`: the result is trimmed, empty exactly when the input is blank, no longer than the input, and equal to the input when that is already trimmed |
| Text.TrimIsMiddle | StealAllTheCats/Controllers/CatsController.cs:112 | `Trim` keeps the slice of the input that starts at its first character that is not white space, and what it cuts on either side is blank |
| Text.TrimAddsNoCharacter | StealAllTheCats/Services/CatFetcherJob.cs:92 | trimming adds no character |
| Text.Split | StealAllTheCats/Services/CatFetcherJob.cs:92 | `Split(',')` gives at least one piece, and no piece holds the separator |
| Text.JoinSplit | StealAllTheCats/Services/CatFetcherJob.cs:92 | splitting loses nothing: joining the pieces with the separator gives back the input |
| Text.SplitPiecesFromInput | StealAllTheCats/Services/CatFetcherJob.cs:92 | every character of every piece occurs in the input |
| Text.SplitNoSeparator | StealAllTheCats/Services/CatFetcherJob.cs:92 | text without the separator is a single piece |
| Text.SplitAtSeparator | StealAllTheCats/Services/CatFetcherJob.cs:92 | the text before the first separator is the first piece, and the rest is split on its own |
| Text.TrimAndDropEmpty | StealAllTheCats/Services/CatFetcherJob.cs:92 | `TrimEntries \| RemoveEmptyEntries`: at most one token per piece |
| Text.TokensOfPiece | StealAllTheCats/Services/CatFetcherJob.cs:92 | one piece yields its `Trim`, or no token when it is blank |
| Text.TrimAndDropEmptyAppend | StealAllTheCats/Services/CatFetcherJob.cs:92 | the tokens of a list of pieces are the tokens of its parts, in order; with `TokensOfPiece`, the tokens are exactly the `Trim` of each non-blank piece, in order |
| Text.TokensTrimmed | StealAllTheCats/Services/CatFetcherJob.cs:92 | every token is non-empty and trimmed |
| Text.TokensAddNoCharacter | StealAllTheCats/Services/CatFetcherJob.cs:92 | a character that occurs in no piece occurs in no token |
| Text.BlankPiecesDropped | StealAllTheCats/Services/CatFetcherJob.cs:92 | pieces made of white space only leave no token |
| Text.SplitTrimmed | StealAllTheCats/Services/CatFetcherJob.cs:92 | `Split(',', TrimEntries \| RemoveEmptyEntries)` gives the tokens of the plain split: the trimmed non-blank pieces between commas, in order; each is non-empty, trimmed and free of ','; a blank temperament gives none |
| Text.PlayfulFriendlyTokens | StealAllTheCats.Tests/Services/CatFetcherJobTests.cs:37-67 | the tests' temperament "Playful, Friendly" gives exactly the tokens "Playful" and "Friendly", in that order |
| Text.Utf16Length | StealAllTheCats/Controllers/CatsController.cs:114 | `string.Length` counts UTF-16 code units: at least the number of characters and at most twice it |
| Text.Utf16LengthBounds | StealAllTheCats/Controllers/CatsController.cs:114 | with only characters of the Basic Multilingual Plane the length is the number of characters; with only characters outside it, twice that |
| Text.FoldKeepsUtf16Length | StealAllTheCats/Controllers/CatsController.cs:114-124 | case folding keeps the length in UTF-16 code units |
| Text.FoldChar | StealAllTheCats/Services/CatFetcherJob.cs:68 | the fold of a character is never an upper-case ASCII letter, and only upper-case ASCII letters are changed |
| Text.StartsWithIgnoreCase | StealAllTheCats/Entities/CatEntity.cs:19 | definition: the text starts with the (lower-case) prefix, ignoring ASCII case |
| Text.Fold | StealAllTheCats/Services/CatFetcherJob.cs:68 | the case fold keeps the length of the name |
| Text.FoldIdempotent | StealAllTheCats/Services/CatFetcherJob.cs:68 | folding twice is folding once, so the folded key of a name is its own key |
| Entities.NewCat | StealAllTheCats/Services/CatFetcherJob.cs:80-87 | a new CatEntity has Id 0 and an empty Tags list, and copies CatId, Width, Height, ImagePath and Created from its inputs |
| Entities.Required | StealAllTheCats/Entities/CatEntity.cs:9-10 | definition of `[Required]` on a string: not null, empty or blank |
| Entities.InRange | StealAllTheCats/Entities/CatEntity.cs:12-16 | definition of `[Range(1, int.MaxValue)]`: at least 1 |
| Entities.IsUrl | StealAllTheCats/Entities/CatEntity.cs:18-19 | definition of `[Url]`: starts with http://, https:// or ftp://, ignoring case |
| Entities.Violations | StealAllTheCats/Services/CatFetcherJob.cs:161-166 | the validation results, property by property in declaration order; `ViolationsSpec` states when each is reported |
| Entities.IsValid | StealAllTheCats/Services/CatFetcherJob.cs:161-166 | `TryValidateObject` returns true exactly when there is no validation result; `ValidIffRules` states the rules |
| Entities.ImagePathViolations | StealAllTheCats/Entities/CatEntity.cs:18-20 | ImagePath yields no violation exactly when it is non-blank and a URL, and never more than one (`[Required]` short-circuits `[Url]`) |
| Entities.ViolationsSpec | StealAllTheCats/Entities/CatEntity.cs:9-20 | each rule is reported exactly when it is broken: blank CatId; Width < 1; Height < 1; blank ImagePath; non-blank ImagePath that is not a URL |
| Entities.ViolationsDistinct | StealAllTheCats/Services/CatFetcherJob.cs:161-166 | no validation result is reported twice |
| Entities.ValidIffRules | StealAllTheCats/Entities/CatEntity.cs:9-20 | a cat is valid exactly when CatId is non-blank, Width >= 1, Height >= 1, and ImagePath is non-blank and a URL |
| Entities.OnlyCatIdBroken | StealAllTheCats.Tests/Services/CatFetcherJobTests.cs:80-126 | a cat that breaks only the CatId rule produces exactly one violation |
| Entities.ViolationsIgnoreTagsAndStamps | StealAllTheCats/Entities/CatEntity.cs:7-23 | validation does not look at Id, Created or Tags |
| Data.CatIds | StealAllTheCats/Services/CatFetcherJob.cs:63-65 | the skip set holds exactly the CatIds of the stored cats |
| Data.StoreValid | StealAllTheCats/Data/DbContext.cs:17-23 | definition of a committed state: unique CatIds, keys issued by the identity columns, and links only to stored tags |
| Data.Numbered | StealAllTheCats/Entities/CatEntity.cs:7 | the identity column numbers the added cats consecutively from its next value, in order, and changes nothing else |
| Data.Links | StealAllTheCats/Data/DbContext.cs:21-23 | the join table holds a (cat Id, tag Id) pair for every tag of every cat, and no other pair |
| Data.Commit | StealAllTheCats/Data/DbContext.cs:17-19 | a save fails, changing nothing, exactly when the unique index on CatId would break; otherwise the stored rows are kept, the added cats follow them with the next identity values as keys, the added tags follow the stored ones, and both counters advance |
| Data.CommitKeepsValid | StealAllTheCats/Data/DbContext.cs:17-23 | a successful commit of tags keyed by the tag counter, with links only to stored or added tags, keeps the store valid and keeps every existing link |
| Data.DbContext.constructor | StealAllTheCats/Data/DbContext.cs:10 | the initial state of a new deployment: both tables empty, both identity columns at 1, and the store valid |
| Data.DbContext.SaveChanges | StealAllTheCats/Services/CatFetcherJob.cs:130-142 | the save succeeds exactly when `Commit` does; then the new state is the commit's, and otherwise the state is unchanged; on a valid store, with added tags keyed from the tag counter and links only to stored or added tags, the store stays valid |
| TagRegistry.BuildRegistry | StealAllTheCats/Services/CatFetcherJob.cs:67-68 | `ToDictionary` with OrdinalIgnoreCase succeeds exactly when the stored names are distinct ignoring case, and then files exactly the stored tags under their folded names |
| TagRegistry.ResolveTag | StealAllTheCats/Services/CatFetcherJob.cs:96-103 | definition of one token's lookup or creation; `ResolveTagSpec` states what it does |
| TagRegistry.ResolveAll | StealAllTheCats/Services/CatFetcherJob.cs:94-104 | definition of the loop over an item's tokens; `ResolveAllKeeps` and `ResolveAllNames` state what it does |
| TagRegistry.ResolveTagSpec | StealAllTheCats/Services/CatFetcherJob.cs:94-104 | a token known ignoring case reuses that very tag and stages nothing; an unknown token stages exactly one tag with the token's casing and the next provisional key, and files it; either way one tag named like the token is attached, and the registry invariant is kept |
| TagRegistry.ResolveAllKeeps | StealAllTheCats/Services/CatFetcherJob.cs:94-104 | resolving all tokens of an item keeps the registry invariant, attaches one tag per token, and keeps earlier staged tags, attached tags and registry entries |
| TagRegistry.ResolveAllNames | StealAllTheCats/Services/CatFetcherJob.cs:94-104 | the k-th attached tag has the k-th token's name ignoring case, every token ends up filed, and every newly staged tag is named after a token |
| TagRegistry.NamesStayDistinct | StealAllTheCats/Services/CatFetcherJob.cs:94-104 | stored and staged tag names are pairwise distinct ignoring case, so no staged tag repeats a stored name or another staged one |
| TagRegistry.ResolveAllKnown | StealAllTheCats/Services/CatFetcherJob.cs:96 | tokens that are all known ignoring case stage nothing and leave the registry unchanged |
| Ingestion.ConfigOk | StealAllTheCats/Services/CatFetcherJob.cs:29-42 | definition: both configuration values are set and not blank |
| Ingestion.Candidate | StealAllTheCats/Services/CatFetcherJob.cs:80-87 | definition of the entity built from an item; `Entities.NewCat` states its fields |
| Ingestion.LogFor | StealAllTheCats/Services/CatFetcherJob.cs:110-113 | definition: one log entry per validation result, in order |
| Ingestion.Step | StealAllTheCats/Services/CatFetcherJob.cs:73-117 | definition of one iteration; `StepKeeps`, `StepOutcome`, `StepStages` and `StepTagsCat` state what it does |
| Ingestion.StageAll | StealAllTheCats/Services/CatFetcherJob.cs:72-118 | definition of the whole loop; `StageAllKeeps`, `StageAllCats`, `StageAllLog` and `StageAllTags` state what it does |
| Ingestion.TagNames | StealAllTheCats/Services/CatFetcherJob.cs:89-92 | an item's tokens come only from the first breed's temperament, split on ',', trimmed, with empty tokens dropped; no breed or a blank temperament gives none |
| Ingestion.Save | StealAllTheCats/Services/CatFetcherJob.cs:120-142 | the log is kept; a failed save is `SaveFailed` and leaves the store unchanged; a completed save reports the staged counts and, when the store changed, the store is the commit of the staged rows |
| Ingestion.Run | StealAllTheCats/Services/CatFetcherJob.cs:24-143 | a blank key fails first and a blank URL second, both before the request; a failed request fails; a null or empty list completes with no change; every failure leaves the store unchanged; a completed run that changed the store saved something |
| IngestionProperties.Accepted | StealAllTheCats/Services/CatFetcherJob.cs:72-118 | reference definition of what the loop stages: no accepted cat has a CatId from the skip set, and none has tags before resolution |
| IngestionProperties.AcceptedItems | StealAllTheCats/Services/CatFetcherJob.cs:72-118 | reference definition of the items whose cats are staged: none has a CatId from the skip set, and each passes validation |
| IngestionProperties.AcceptedOfItems | StealAllTheCats/Services/CatFetcherJob.cs:72-118 | the accepted cats are the new entities of the accepted items, one for one, in order |
| IngestionProperties.AcceptedValid | StealAllTheCats/Services/CatFetcherJob.cs:107-117 | every accepted cat passes validation |
| IngestionProperties.AcceptedIncludes | StealAllTheCats/Services/CatFetcherJob.cs:72-118 | every item that is not skipped and passes validation has its cat among the accepted ones |
| IngestionProperties.AcceptedTwice | StealAllTheCats/Services/CatFetcherJob.cs:63-78 | two valid items with CatIds outside the skip set are both accepted, in input order, even when they share a CatId |
| IngestionProperties.AcceptedNone | StealAllTheCats/Services/CatFetcherJob.cs:72-118 | when every item is skipped or invalid, nothing is accepted |
| IngestionProperties.StepKeeps | StealAllTheCats/Services/CatFetcherJob.cs:72-118 | one iteration keeps the loop invariant, the staged tags and the registry entries, and changes nothing for a CatId in the skip set |
| IngestionProperties.StepFiles | StealAllTheCats/Services/CatFetcherJob.cs:94-104 | after an item that is not skipped, all its tokens are filed, and every tag staged for it is named after one of them |
| IngestionProperties.StepOutcome | StealAllTheCats/Services/CatFetcherJob.cs:75-117 | one iteration stages the item's cat (tags aside) exactly when it is not skipped and valid, and logs one entry per violation exactly when it is not skipped and invalid |
| IngestionProperties.StepStages | StealAllTheCats/Services/CatFetcherJob.cs:103-117 | the staged cat is the new entity with the resolved tags attached |
| IngestionProperties.ResolvedTagsMatch | StealAllTheCats/Services/CatFetcherJob.cs:94-104 | resolving from the loop state gives one tag per token, named like the token ignoring case |
| IngestionProperties.StepTagsCat | StealAllTheCats/Services/CatFetcherJob.cs:89-105 | a staged cat carries one tag per token of its item, in order, each named like its token ignoring case |
| IngestionProperties.StepStagesNothing | StealAllTheCats/Services/CatFetcherJob.cs:75-78 | an item that is skipped or fails validation stages no cat |
| IngestionProperties.StepTagged | StealAllTheCats/Services/CatFetcherJob.cs:89-117 | one iteration over an accepted item appends its cat, tagged like its tokens, after what was staged before |
| IngestionProperties.AppendTagged | StealAllTheCats/Services/CatFetcherJob.cs:117 | appending a cat tagged like its item keeps every earlier staged cat tagged like its own item |
| IngestionProperties.StageAllTags | StealAllTheCats/Services/CatFetcherJob.cs:72-118 | the loop appends one cat per accepted item, in order, each with one tag per token of its item, named like the token ignoring case, and keeps what was staged before |
| IngestionProperties.StageAllKeeps | StealAllTheCats/Services/CatFetcherJob.cs:72-118 | the whole loop keeps its invariant, the staged tags and the registry entries |
| IngestionProperties.StageAllCats | StealAllTheCats/Services/CatFetcherJob.cs:72-118 | the loop stages exactly `Accepted`, in input order, after what was staged before (tags aside) |
| IngestionProperties.StageAllLog | StealAllTheCats/Services/CatFetcherJob.cs:107-115 | the loop logs exactly `Rejections`: one entry per violation of every item that is not skipped and is invalid, in order |
| IngestionProperties.StageAllFiles | StealAllTheCats/Services/CatFetcherJob.cs:89-105 | every token of every item that is not skipped ends up filed, including the tokens of rejected items |
| IngestionProperties.StageAllKnownTags | StealAllTheCats/Services/CatFetcherJob.cs:94-104 | a loop whose tokens are all known ignoring case stages no tag |
| IngestionProperties.SeedOk | StealAllTheCats/Services/CatFetcherJob.cs:67-71 | the state the loop starts from satisfies the loop invariant |
| IngestionProperties.RunOnLoop | StealAllTheCats/Services/CatFetcherJob.cs:120-142 | a run that gets past the guards ends with the save of what its loop staged |
| IngestionProperties.SaveKeepsValid | StealAllTheCats/Services/CatFetcherJob.cs:120-142 | saving a batch that satisfies the loop invariant keeps the store valid and keeps tag names distinct ignoring case |
| IngestionProperties.RunKeepsStoreValid | StealAllTheCats/Data/DbContext.cs:17-19 | every run keeps the store valid (unique CatIds, issued keys, links to stored tags), and keeps tag names distinct ignoring case when they were |
| RunProperties.RunLog | StealAllTheCats/Services/CatFetcherJob.cs:107-115 | a run that reaches the loop logs `Rejections`, however it ends |
| RunProperties.StagedCats | StealAllTheCats/Services/CatFetcherJob.cs:72-118 | the cats a run stages are the accepted ones with tags attached |
| RunProperties.SaveAppends | StealAllTheCats/Services/CatFetcherJob.cs:120-142 | a completed save keeps the stored cats and appends the staged ones, with the next identity values as keys |
| RunProperties.RunSavesAccepted | StealAllTheCats/Services/CatFetcherJob.cs:120-142 | a completed run keeps the stored cats and appends exactly the accepted cats, in input order, with the next keys and the run's creation stamp, all valid |
| RunProperties.RunSavesTags | StealAllTheCats/Services/CatFetcherJob.cs:89-142 | in a completed run, the saved cat of the k-th accepted item has one tag per token of that item, in order, each named like its token ignoring case, and every tag of a new cat is a stored tag |
| RunProperties.SaveKeepsTags | StealAllTheCats/Services/CatFetcherJob.cs:120-142 | a completed save stores each staged cat with its tags, all of them stored tags |
| RunProperties.UniqueAfterAppend | StealAllTheCats/Data/DbContext.cs:17-19 | appending cats whose CatIds are new keeps CatIds unique exactly when the appended CatIds are unique among themselves |
| RunProperties.SaveFailsIffRepeatedCatId | StealAllTheCats/Services/CatFetcherJob.cs:130-142 | a run that reaches the loop fails exactly when two accepted cats share a CatId, and then with the save error and no change |
| RunProperties.RepeatedFreshItemFailsSave | StealAllTheCats/Services/CatFetcherJob.cs:63-78 | two valid items with the same CatId, unknown to the store, make the run fail at the save and store nothing |
| RunProperties.SaveTags | StealAllTheCats/Services/CatFetcherJob.cs:125-128 | a completed save stores the staged tags after the stored ones |
| RunProperties.FiledIsNamed | StealAllTheCats/Services/CatFetcherJob.cs:94-104 | every name filed in the registry is, ignoring case, the name of a stored or staged tag |
| RunProperties.StagedTokensNamed | StealAllTheCats/Services/CatFetcherJob.cs:94-104 | every token of every item that is not skipped names a stored or staged tag, ignoring case |
| RunProperties.CompletedRunFilesEveryToken | StealAllTheCats/Services/CatFetcherJob.cs:89-117 | after a completed run, every token of every item that was not skipped names a stored tag, whether or not its cat passed validation |
| RunProperties.ValidAnyTime | StealAllTheCats/Services/CatFetcherJob.cs:86 | validation does not depend on the clock |
| RunProperties.AcceptedNoneAfter | StealAllTheCats/Services/CatFetcherJob.cs:63-78 | once every CatId the first pass accepted is in the skip set, the same items accept nothing, whatever the clock |
| RunProperties.SecondLoopAcceptsNothing | StealAllTheCats/Services/CatFetcherJob.cs:63-78 | after the accepted cats were appended, the skip set has grown and a second loop over the same items accepts nothing |
| RunProperties.SecondLoopKnowsEveryToken | StealAllTheCats/Services/CatFetcherJob.cs:67-68 | when every token names a stored tag, the dictionary built from the stored tags has every token filed |
| RunProperties.SecondRunSavesNothing | StealAllTheCats/Services/CatFetcherJob.cs:120-136 | a run that accepts nothing and knows every token saves nothing and leaves the store unchanged |
| RunProperties.RerunAddsNothing | StealAllTheCats/Services/CatFetcherJob.cs:24-143 | rerunning the job on the same answer after a completed run, at any time, completes with no cat and no tag added and the store unchanged |
| FetcherJob.CatFetcherJob.constructor | StealAllTheCats/Services/CatFetcherJob.cs:16-22 | the job keeps the context and configuration it is given |
| FetcherJob.CatFetcherJob.ValidateModel | StealAllTheCats/Services/CatFetcherJob.cs:161-166 | returns true exactly when the cat is valid, which is exactly when the result list is empty; the results are the cat's violations |
| FetcherJob.CatFetcherJob.ResolveTags | StealAllTheCats/Services/CatFetcherJob.cs:94-104 | the in-place loop over the tokens ends with the attached tags, staged tags and dictionary of `ResolveAll` |
| FetcherJob.CatFetcherJob.LogValidationErrors | StealAllTheCats/Services/CatFetcherJob.cs:110-113 | the logging loop appends one entry per validation result, in order |
| FetcherJob.CatFetcherJob.StageItems | StealAllTheCats/Services/CatFetcherJob.cs:72-118 | the `foreach` with its `continue`s ends with the state `StageAll` computes |
| FetcherJob.CatFetcherJob.FetchAndStoreCats | StealAllTheCats/Services/CatFetcherJob.cs:24-143 | the outcome and the new contents of the context are those of `Run` on the old contents, and the context stays valid |
| Query.ToDtos | StealAllTheCats/Controllers/CatsController.cs:133-142 | definition: one DTO per row, in order; `Answer` states it of every listed item |
| Query.HasTag | StealAllTheCats/Controllers/CatsController.cs:124 | definition: some tag of the cat has the name, ignoring case |
| Query.Matches | StealAllTheCats/Controllers/CatsController.cs:110-124 | definition: with no filter every cat matches, otherwise the cats that have the tag |
| Query.Filter | StealAllTheCats/Controllers/CatsController.cs:124 | definition of `Where`; `FilterCounts` states what it keeps |
| Query.Listing | StealAllTheCats/Controllers/CatsController.cs:124-130 | definition: the matching rows ordered by Id; `ListingSpec` states it |
| Query.Skip | StealAllTheCats/Controllers/CatsController.cs:131 | definition of `Skip(n)`; `Page` states it together with `Take` |
| Query.Take | StealAllTheCats/Controllers/CatsController.cs:132 | definition of `Take(n)`; `Page` states it together with `Skip` |
| Query.ToDto | StealAllTheCats/Controllers/CatsController.cs:58-67 | the projection copies Id, CatId, Width, Height, ImagePath and Created unchanged, and lists the tag names in the cat's tag order |
| Query.FilterCounts | StealAllTheCats/Controllers/CatsController.cs:124 | the filter keeps every occurrence of a cat that has a tag whose name equals the filter ignoring case, and nothing else |
| Query.FilterSameFold | StealAllTheCats/Controllers/CatsController.cs:124 | the filter sees the tag only through its case fold |
| Query.FilterKeepsUniqueIds | StealAllTheCats/Controllers/CatsController.cs:124 | filtering keeps Ids unique |
| Query.InsertKeepsOrder | StealAllTheCats/Controllers/CatsController.cs:130 | inserting a row into rows ascending by Id keeps them ascending, strictly so when its Id is new |
| Query.SortById | StealAllTheCats/Controllers/CatsController.cs:130 | `OrderBy(c => c.Id)` keeps the number of rows; `SortByIdSpec` states the ordering |
| Query.SortByIdSpec | StealAllTheCats/Controllers/CatsController.cs:130 | `OrderBy(c => c.Id)` is a permutation of its input, ascending by Id, and strictly ascending when Ids are unique |
| Query.Offset | StealAllTheCats/Controllers/CatsController.cs:131 | the number of rows skipped is never negative |
| Query.OffsetIsProduct | StealAllTheCats/Controllers/CatsController.cs:131 | the rows skipped are `(page - 1) * pageSize` |
| Query.OffsetGrows | StealAllTheCats/Controllers/CatsController.cs:131 | a later page starts at least one page after an earlier one |
| Query.OffsetOfIndex | StealAllTheCats/Controllers/CatsController.cs:131 | row i is on page `i / pageSize + 1` at position `i % pageSize` |
| Query.Page | StealAllTheCats/Controllers/CatsController.cs:131-132 | `Skip(..).Take(pageSize)` holds at most pageSize rows, exactly pageSize or what is left after the skipped rows, and these are the rows that follow the skipped ones, in order |
| Query.RequestedFilter | StealAllTheCats/Controllers/CatsController.cs:110-112 | no filter for a null, empty or blank tag; otherwise the trimmed tag, which is non-empty and trimmed |
| Query.GetCats | StealAllTheCats/Controllers/CatsController.cs:96-154 | BadRequest(InvalidPaging) exactly when page or pageSize is not positive; BadRequest(TagTooLong) exactly when paging is valid and the trimmed non-blank tag is longer than 50 UTF-16 code units; otherwise page and pageSize are echoed, total is the number of matching cats, and data holds at most pageSize items |
| Query.Answer | StealAllTheCats/Controllers/CatsController.cs:127-151 | the 200 answer: total counts the matching cats, page and pageSize are echoed, data holds pageSize items or what is left, and item k is the projection of listing row `Offset + k` |
| Query.ListingSpec | StealAllTheCats/Controllers/CatsController.cs:124-130 | the listing holds each matching cat as often as the table does and nothing else, in ascending Id order, strictly so when Ids are unique; its length is the total |
| Query.ListingMembers | StealAllTheCats/Controllers/CatsController.cs:124 | every row of the listing is a matching row of the table |
| Query.GetCatsItem | StealAllTheCats/Controllers/CatsController.cs:129-142 | item k of an answered page is the projection of the listing's row `(page - 1) * pageSize + k` |
| Query.GetCatsListsMatches | StealAllTheCats/Controllers/CatsController.cs:124-143 | every listed item is the projection of a matching cat of the table |
| Query.GetCatsIdsIncrease | StealAllTheCats/Controllers/CatsController.cs:130 | with unique Ids, the Ids of a page strictly increase |
| Query.GetCatsPagesCover | StealAllTheCats/Controllers/CatsController.cs:129-132 | every matching cat, as the i-th row in Id order, is listed on page `i / pageSize + 1` at position `i % pageSize` |
| Query.GetCatsPagesDisjoint | StealAllTheCats/Controllers/CatsController.cs:129-132 | with unique Ids, every Id on a later page is larger than every Id on an earlier one, so no cat is on two pages |
| Query.TotalIgnoresPaging | StealAllTheCats/Controllers/CatsController.cs:127 | total depends on neither page nor pageSize |
| Query.BlankTagIsNoFilter | StealAllTheCats/Controllers/CatsController.cs:110 | a null, empty or blank tag answers exactly as no tag |
| Query.TagIgnoresCaseAndSpaces | StealAllTheCats/Controllers/CatsController.cs:110-124 | two tags equal after trimming and case folding get the same answer |
| Query.NoMatchIsEmptyPage | StealAllTheCats/Controllers/CatsController.cs:127-153 | a tag no cat has is not an error: total 0 and empty data |
| Query.GetCatById | StealAllTheCats/Controllers/CatsController.cs:54-81 | NotFound exactly when no cat has the Id; otherwise the projection of a cat with that Id |
| QueryExamples.FilterByTagListsOnlyMatches | StealAllTheCats.Tests/Controllers/CatsControllerTests.cs:59-71 | on the tests' two cats, tag "Playful" lists exactly one cat, CatId "1" |
| QueryExamples.EmojiTagTooLong | StealAllTheCats/Controllers/CatsController.cs:110-122 | a tag of 26 cat-face emoji, 26 characters but 52 UTF-16 code units, is refused as too long |
| QueryExamples.SecondPageOfOne | StealAllTheCats.Tests/Controllers/CatsControllerTests.cs:73-85 | on the tests' two cats, page 2 of size 1 lists exactly one cat, CatId "2", out of a total of 2 |

## Left out

- HTTP and JSON: the client factory, the `x-api-key` header, the request URL, `EnsureSuccessStatusCode` and `ReadFromJsonAsync` are the input `HttpResult`. A body that is not valid JSON fails the deserialiser, and that failure is not modelled. JSON `null` in a field is not modelled either. A null `id` or `url` would fail `[Required]`, so the cat would be logged and rejected, never stored, as a blank one is here. A null `breeds` list would throw at `result.Breeds.FirstOrDefault()` (CatFetcherJob.cs:89) and end the run. A null temperament counts as blank (CatFetcherJob.cs:90), as the blank one modelled here does.
- Logging: the information and error lines of the logger are left out. The only exception is the "Validation failed" line per validation result, which is the `LogEntry` list.
- Clock: `DateTime.UtcNow` is the parameter `now`.
- Ingestion.Run: every cat of one run gets the same creation stamp `now`, whereas the source reads the clock once per item (CatFetcherJob.cs:86). Validation ignores the stamp (`RunProperties.ValidAnyTime`).
- Entity Framework mechanics: the change tracker, `AddRange`, `HasChanges`, the SQL translation of the queries and the in-memory test provider are left out. The save is one atomic commit that fails only on the unique index on CatId. Connection failures and other database errors are not modelled, and neither are the SQL column widths or `StringLength(80)` on tag names.
- Identity values: a failed save leaves both counters where they were. SQL Server can use up identity values in a failed insert, so later keys can skip numbers. Keys still increase in insertion order, which is all `Data.StoreValid` states.
- Concurrency: concurrent runs, and reads during a run, are not modelled; a run is one atomic step.
- Object identity: each cat's tags are a list of tag values, which stand in for shared `TagEntity` objects. A tag staged in one run and attached to several cats appears in each of them with the same provisional key. The cat is built as a value, not mutated through `cat.Tags.Add`.
- Repeated tokens: a temperament such as "Calm, calm" attaches the same tag to the cat twice, and the model's tag list keeps both, as `cat.Tags` does in memory. The join table has a composite key (DbContext.cs:21-23) and `Data.Links` is a set, so it holds one pair for them. What Entity Framework does with the repeated entry at save time is not modelled.
- Case folding: `StringComparer.OrdinalIgnoreCase` (CatFetcherJob.cs:68) and `ToLower()` (CatsController.cs:124) are both the same fold, which lower-cases ASCII letters only. The case mapping of other letters and the culture dependence of `ToLower()` are not modelled.
- URL rule: `UrlAttribute` is modelled as a check for the prefix `http://`, `https://` or `ftp://`, ignoring case.
- Query.GetCats: does not model the 32-bit overflow of `(page - 1) * pageSize` (CatsController.cs:131); the model uses mathematical integers.
- Query.GetCats: works on the table of cats passed as a sequence, not on a `DBContext`.
- Query.SortByIdSpec: states no tie order for equal Ids, which a valid store never has (`IngestionProperties.RunKeepsStoreValid` keeps Ids increasing).
- The hosting around the core is left out: the Hangfire enqueue in `CatsController.FetchCatsAsync` and the job status types, `JobsController`, `Program.cs`, the RabbitMQ consumer and publisher, and `ICatService`.
- The DTO classes beyond their modelled fields, and their Swagger annotations, are left out.
