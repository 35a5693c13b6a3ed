# Recipe search ranking and recipe store, modelled in Dafny

This project models the core of a recipe-sharing backend's `RecipeService`.
Users register and publish recipes (keywords, ingredients, steps, an author),
and other users search them by keywords or by ingredients.

The one piece of real logic is the relevance ranking behind both searches:

1. The service looks up every query term in the repository, in the caller's order.
2. It appends every result to one flat list, repeats included.
3. It sorts that list in place, stably, by how often each recipe occurs in it, most frequent first.
4. It copies the sorted list into a `LinkedHashSet`, which keeps the first occurrence of each recipe.

The result therefore runs from the recipe matched by the most terms to the one
matched by the fewest. Equal counts keep the order in which the recipes first
appeared in the collected list.

Files:

- `entities.dfy`, module `Entities`: the `Recipe` and `User` records as value
  datatypes. Lombok's `@Data` gives the Java classes field-by-field equality,
  and a datatype has the same. The recipe's author is held as a user id.
- `ranking.dfy`, module `Ranking`: the ranking, generic in the element type.
  - Specification functions: `Frequency`, `StableSortByTally` (a stable insertion sort by tally, descending), `FirstOccurrences` (what the `LinkedHashSet` iterates) and `Rank`.
  - Predicates: `IsRanking`, the independent description of a correct result.
  - Methods for the imperative steps: `SortInPlace` and `InsertLast` sort an array in place; `KeepFirstOccurrences` fills a seen-set; `SortRecipes` is `sortRecipes`.
- `service.dfy`, module `Service`: the search loop (`CollectMatches`), the two searches, and class `RecipeService`.
  - The class holds the recipe store and the user store as maps from id to record.
  - It has the store operations, with their `EntityNotFoundException` paths modelled as `Err` results.

The central results are:

- `Ranking.RankIsRanking` and `Ranking.RankingIsUnique`. Together they say that `Rank(matches)` is the one and only sequence that:
  - lists every matched recipe exactly once;
  - puts a more frequent recipe before a less frequent one;
  - orders equally frequent recipes by their first appearance in the matches.
- `Ranking.SortInPlace` and `Ranking.KeepFirstOccurrences`, whose imperative loops are proved to compute exactly the specification functions.

Empty term lists:

- `getRecipesByKeywords` and `getRecipesByIngredients` do not check for an empty term list. An empty list collects nothing and ranks to an empty result (`Service.NoMatchesNoResults`).
- The web controller rejects an empty list with "No given keywords !". The controller is not part of this model.

## Model

| member | source | states |
|---|---|---|
| `Ranking.RankIsRanking` | src/main/java/com/bonitasoft/cookingapp/service/RecipeService.java:51-57 | the ranked result has no duplicates, holds exactly the recipes of the collected list, puts a recipe that occurs more often before one that occurs less often, and orders equal counts by first appearance in the collected list |
| `Ranking.RankingIsUnique` | src/main/java/com/bonitasoft/cookingapp/service/RecipeService.java:53-54 | any duplicate-free ordering of the matched recipes by (count descending, first appearance) is the ranked result: sort-then-dedup is fully determined |
| `Ranking.StableSortByTallyKeeps` | src/main/java/com/bonitasoft/cookingapp/service/RecipeService.java:53 | the sort is a permutation of the list, runs from highest to lowest tally, and is stable: for each tally value the recipes with that tally keep their relative order |
| `Ranking.WithTallyOrder` | src/main/java/com/bonitasoft/cookingapp/service/RecipeService.java:53 | for two recipes of equal tally, which one comes first in a list is decided by their order among the recipes of that tally, so a stable sort keeps the first-appearance order of ties |
| `Ranking.InsertByTallySorted` | src/main/java/com/bonitasoft/cookingapp/service/RecipeService.java:53 | inserting one recipe behind every recipe of at least its tally keeps a list sorted by tally, descending |
| `Ranking.InsertByTallyStable` | src/main/java/com/bonitasoft/cookingapp/service/RecipeService.java:53 | that insertion appends the recipe at the end of the recipes of its own tally and leaves every other tally's recipes as they were |
| `Ranking.FirstOccurrencesKeeps` | src/main/java/com/bonitasoft/cookingapp/service/RecipeService.java:54 | the `LinkedHashSet` copy has no duplicates, holds exactly the elements of the list, and orders them by their first position in the list |
| `Ranking.RankOfDistinct` | src/main/java/com/bonitasoft/cookingapp/service/RecipeService.java:51-57 | a list without repeats ranks to itself: every count is one, so first appearance decides |
| `Ranking.RankIdempotent` | src/main/java/com/bonitasoft/cookingapp/service/RecipeService.java:51-57 | ranking an already ranked result gives it back unchanged |
| `Ranking.InsertLast` | src/main/java/com/bonitasoft/cookingapp/service/RecipeService.java:53 | one in-place pass shifts the next element down behind every element of at least its tally and leaves the rest of the array alone |
| `Ranking.SortInPlace` | src/main/java/com/bonitasoft/cookingapp/service/RecipeService.java:53 | `recipes.sort(...)` rearranges the array in place into the stable sort of its old contents by tally, descending |
| `Ranking.KeepFirstOccurrences` | src/main/java/com/bonitasoft/cookingapp/service/RecipeService.java:54 | filling a seen-set in list order yields exactly the first occurrences of the sorted list |
| `Ranking.SortRecipes` | src/main/java/com/bonitasoft/cookingapp/service/RecipeService.java:51-57 | `sortRecipes` leaves its list stably sorted by frequency and returns the ranking of the list it was given |
| `Service.CollectMatches` | src/main/java/com/bonitasoft/cookingapp/service/RecipeService.java:36-39 | the search loop looks up each term once, in the caller's order, and returns all results concatenated in that order, repeats kept |
| `Service.MatchesMembers` | src/main/java/com/bonitasoft/cookingapp/service/RecipeService.java:36-39 | a recipe is in the collected list exactly when some query term's lookup returned it |
| `Service.SearchFindsMatched` | src/main/java/com/bonitasoft/cookingapp/service/RecipeService.java:35-41 | a recipe is in the search result exactly when some query term's lookup returned it |
| `Service.NoMatchesNoResults` | src/main/java/com/bonitasoft/cookingapp/service/RecipeService.java:35-40 | an empty term list, or terms whose lookups all return nothing, collects nothing and yields an empty result, not an error |
| `Service.FrequencyIsMatchingTerms` | src/main/java/com/bonitasoft/cookingapp/service/RecipeService.java:36-39 | when no single lookup repeats a recipe, the recipe's frequency in the collected list is the number of query terms that returned it |
| `Service.MoreMatchingTermsRankFirst` | src/main/java/com/bonitasoft/cookingapp/service/RecipeService.java:35-57 | when no single lookup repeats a recipe, a recipe returned for more query terms is listed before one returned for fewer |
| `Service.TwoTermExample` | src/main/java/com/bonitasoft/cookingapp/service/RecipeService.java:35-57 | terms "a" and "b" returning [r1, r2] and [r2] rank to [r2, r1] |
| `Service.OneTermExample` | src/main/java/com/bonitasoft/cookingapp/service/RecipeService.java:35-57 | one term returning [r3, r4] ranks to [r3, r4]: equal counts keep the order of first appearance |
| `Service.SearchByTerms` | src/main/java/com/bonitasoft/cookingapp/service/RecipeService.java:35-41 | collecting the matches into a fresh list and sorting it yields the ranking of the collected matches |
| `Service.RecipeService.GetRecipesByKeywords` | src/main/java/com/bonitasoft/cookingapp/service/RecipeService.java:35-41 | the keyword search returns the ranking of the keyword lookups' results |
| `Service.RecipeService.GetRecipesByIngredients` | src/main/java/com/bonitasoft/cookingapp/service/RecipeService.java:43-49 | the ingredient search returns the ranking of the ingredient lookups' results |
| `Service.RecipeService.AddRecipe` | src/main/java/com/bonitasoft/cookingapp/service/RecipeService.java:22-25 | the recipe is stored under its id, is returned unchanged, and can be read back by id |
| `Service.RecipeService.GetAllRecipes` | src/main/java/com/bonitasoft/cookingapp/service/RecipeService.java:27-29 | the result holds every stored recipe and only stored recipes, each under its own id |
| `Service.RecipeService.GetRecipesByAuthor` | src/main/java/com/bonitasoft/cookingapp/service/RecipeService.java:31-33 | the result holds exactly the stored recipes whose author is the given user |
| `Service.RecipeService.GetRecipeById` | src/main/java/com/bonitasoft/cookingapp/service/RecipeService.java:89-92 | succeeds exactly when the id is stored, returning the recipe with that id; otherwise fails with NotFound for that id |
| `Service.RecipeService.UpdateRecipe` | src/main/java/com/bonitasoft/cookingapp/service/RecipeService.java:59-76 | an absent recipe id fails with NotFound, saves nothing and never looks up the author. An absent author fails with NotFound and saves nothing. Otherwise the stored recipe gets the new keywords, ingredients, steps and author, keeps its id, and is saved and returned; no other recipe changes |
| `Service.RecipeService.DeleteRecipe` | src/main/java/com/bonitasoft/cookingapp/service/RecipeService.java:80-86 | an absent id fails with NotFound and changes nothing. A present id removes exactly that entry, leaving one entry fewer and every other entry unchanged |

## Left out

- Persistence plumbing: repository interfaces, dependency injection, entity and collection mappings. The stores are maps from id to record.
- Database id generation and `null` ids: `AddRecipe` stores the recipe under the id it already carries, and ids are unbounded integers rather than nullable 64-bit `Long`s.
- Cascading persistence of a new author when a recipe is saved is not modelled; a recipe holds only its author's id.
- The repository's per-term queries (`getRecipesByKey`, `getRecipesByIngredients`) are not shown in the source, so each search takes its query as a function from a term to a list of recipes. Nothing is assumed about what the query matches.
- Service.RecipeService.GetAllRecipes and Service.RecipeService.GetRecipesByAuthor return sets, not lists, so the order of the result is not modelled; the repository promises no order.
- Service.RecipeService.GetRecipesByAuthor: the repository query `getByAuthor` is modelled as "the author id equals the given user's id", since the query itself is not part of this model.
- Java's TimSort and the recount of `Collections.frequency` inside every comparison are replaced by a stable insertion sort over a tally computed once before sorting. Sorting only permutes the list, so every recount gives the same tally.
- Ranking.SortInPlace: the once-computed tally equals every recount only while the comparator sees a permutation of the list. That holds for lists under 32 elements, which TimSort sorts by binary insertion with the array intact. Longer lists are merged, and a comparison during a merge can see the array partly overwritten. Counts seen there may differ from the tally; the model gives the intended count-based order.
- Service.CollectMatches: the repository lookups are pure functions here. The record that each term is looked up once, in order, is a ghost trace, not an observable call count.
- Service.RecipeService.UpdateRecipe: the source overwrites the fetched entity's fields before it checks the author. Only what is saved is modelled, so a failed author check leaves the store exactly as it was.
- The web controllers are not part of this model. This covers the HTTP status mapping, the controller's rejection of an empty term list, token issuance, password encoding and authentication.
- The user-details adapter for the security framework is not part of this model.
