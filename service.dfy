/**
 * The recipe catalogue service: recipes and users kept by id, the store
 * operations with their not-found errors, and the keyword and ingredient
 * searches, which rank the per-term matches of the recipe repository.
 *
 * The repository's per-term queries are not part of this model; each search
 * receives its query as a function from a term to the recipes it returns.
 */
module Service {
  import opened Entities
  import Ranking

  /** The `EntityNotFoundException`s the service raises, with the id that was missing. */
  datatype Error = RecipeNotFound(recipeId: int) | UserNotFound(userId: int)

  datatype Result<T> = Ok(value: T) | Err(error: Error)

  // ----- Search -----

  /** What the search loop collects: every lookup result, term after term, repeats kept. */
  function Matches(terms: seq<string>, lookup: string -> seq<Recipe>): seq<Recipe>
  {
    if terms == [] then []
    else Matches(terms[..|terms| - 1], lookup) + lookup(terms[|terms| - 1])
  }

  /** How many of the query terms returned `r`. */
  function MatchingTerms(terms: seq<string>, lookup: string -> seq<Recipe>, r: Recipe): nat
  {
    if terms == [] then 0
    else MatchingTerms(terms[..|terms| - 1], lookup, r) + (if r in lookup(terms[|terms| - 1]) then 1 else 0)
  }

  /** A recipe is collected exactly when some term's lookup returned it. */
  lemma {:induction false} MatchesMembers(terms: seq<string>, lookup: string -> seq<Recipe>, x: Recipe)
    ensures x in Matches(terms, lookup) <==> exists i :: 0 <= i < |terms| && x in lookup(terms[i])
  {
    if terms != [] {
      var p, t := terms[..|terms| - 1], terms[|terms| - 1];
      MatchesMembers(p, lookup, x);
      if x in Matches(p, lookup) {
        var i :| 0 <= i < |p| && x in lookup(p[i]);
        assert terms[i] == p[i];
      }
      if exists i :: 0 <= i < |terms| && x in lookup(terms[i]) {
        var i :| 0 <= i < |terms| && x in lookup(terms[i]);
        if i < |p| {
          assert terms[i] == p[i];
        }
      }
    }
  }

  /** When no lookup returns anything, nothing is collected and the search result is empty. */
  lemma {:induction false} NoMatchesNoResults(terms: seq<string>, lookup: string -> seq<Recipe>)
    requires forall i :: 0 <= i < |terms| ==> lookup(terms[i]) == []
    ensures Matches(terms, lookup) == []
    ensures Ranking.Rank(Matches(terms, lookup)) == []
  {
    if terms != [] {
      var p := terms[..|terms| - 1];
      assert forall i :: 0 <= i < |p| ==> p[i] == terms[i];
      NoMatchesNoResults(p, lookup);
    }
  }

  /**
   * When no single lookup repeats a recipe, a recipe's frequency in the
   * collected matches is the number of query terms that returned it.
   */
  lemma {:induction false} FrequencyIsMatchingTerms(terms: seq<string>, lookup: string -> seq<Recipe>, r: Recipe)
    requires forall i :: 0 <= i < |terms| ==> Ranking.NoDuplicates(lookup(terms[i]))
    ensures Ranking.Frequency(Matches(terms, lookup), r) == MatchingTerms(terms, lookup, r)
  {
    if terms != [] {
      var p, t := terms[..|terms| - 1], terms[|terms| - 1];
      assert forall i :: 0 <= i < |p| ==> p[i] == terms[i];
      FrequencyIsMatchingTerms(p, lookup, r);
      assert multiset(Matches(terms, lookup)) == multiset(Matches(p, lookup)) + multiset(lookup(t));
      if r in lookup(t) {
        Ranking.FrequencyOfDistinct(lookup(t), r);
      }
    }
  }

  /** The searched recipes are exactly those some term's lookup returned. */
  lemma SearchFindsMatched(terms: seq<string>, lookup: string -> seq<Recipe>, x: Recipe)
    ensures x in Ranking.Rank(Matches(terms, lookup)) <==> exists i :: 0 <= i < |terms| && x in lookup(terms[i])
  {
    var matches := Matches(terms, lookup);
    var ranked := Ranking.Rank(matches);
    Ranking.RankIsRanking(matches);
    MatchesMembers(terms, lookup, x);
    if x in ranked {
      var i :| 0 <= i < |ranked| && ranked[i] == x;
    }
    if x in matches {
      var i :| 0 <= i < |matches| && matches[i] == x;
    }
  }

  /** A recipe returned for more of the terms is listed before one returned for fewer. */
  lemma MoreMatchingTermsRankFirst(terms: seq<string>, lookup: string -> seq<Recipe>, i: nat, j: nat)
    requires forall k :: 0 <= k < |terms| ==> Ranking.NoDuplicates(lookup(terms[k]))
    requires i < |Ranking.Rank(Matches(terms, lookup))| && j < |Ranking.Rank(Matches(terms, lookup))|
    requires MatchingTerms(terms, lookup, Ranking.Rank(Matches(terms, lookup))[i]) >
             MatchingTerms(terms, lookup, Ranking.Rank(Matches(terms, lookup))[j])
    ensures i < j
  {
    var ranked := Ranking.Rank(Matches(terms, lookup));
    Ranking.RankIsRanking(Matches(terms, lookup));
    FrequencyIsMatchingTerms(terms, lookup, ranked[i]);
    FrequencyIsMatchingTerms(terms, lookup, ranked[j]);
  }

  /** Terms "a" and "b" return [r1, r2] and [r2]: r2 matched twice, so it comes first. */
  lemma TwoTermExample(lookup: string -> seq<Recipe>, r1: Recipe, r2: Recipe)
    requires r1 != r2
    requires lookup("a") == [r1, r2] && lookup("b") == [r2]
    ensures Ranking.Rank(Matches(["a", "b"], lookup)) == [r2, r1]
  {
    var matches := Matches(["a", "b"], lookup);
    assert ["a", "b"][..1] == ["a"] && ["a"][..0] == [];
    assert Matches(["a"], lookup) == [r1, r2];
    assert matches == [r1, r2, r2];
    assert multiset(matches)[r2] == 2 && multiset(matches)[r1] == 1;
    Ranking.RankingIsUnique(matches, [r2, r1]);
  }

  /** Term "x" returns [r3, r4]: equal counts keep the order of first appearance. */
  lemma OneTermExample(lookup: string -> seq<Recipe>, r3: Recipe, r4: Recipe)
    requires r3 != r4
    requires lookup("x") == [r3, r4]
    ensures Ranking.Rank(Matches(["x"], lookup)) == [r3, r4]
  {
    assert Matches(["x"], lookup) == [r3, r4];
    Ranking.RankOfDistinct([r3, r4]);
  }

  /**
   * The loop of both searches: looks up every term once, in the caller's
   * order, and appends each result to one list. `asked` records the terms in
   * the order they were looked up.
   */
  method CollectMatches(terms: seq<string>, lookup: string -> seq<Recipe>)
    returns (matches: seq<Recipe>, ghost asked: seq<string>)
    ensures matches == Matches(terms, lookup)
    ensures asked == terms
  {
    matches, asked := [], [];
    for i := 0 to |terms|
      invariant matches == Matches(terms[..i], lookup)
      invariant asked == terms[..i]
    {
      var found := lookup(terms[i]);
      asked := asked + [terms[i]];
      assert terms[..i + 1][..i] == terms[..i];
      matches := matches + found;
    }
    assert terms[..|terms|] == terms;
  }

  /** Collects the matches of `terms` into a fresh list and ranks it. */
  method SearchByTerms(terms: seq<string>, lookup: string -> seq<Recipe>) returns (ranked: seq<Recipe>)
    ensures ranked == Ranking.Rank(Matches(terms, lookup))
    ensures Ranking.IsRanking(Matches(terms, lookup), ranked)
  {
    var matches, asked := CollectMatches(terms, lookup);
    var list := new Recipe[|matches|](i requires 0 <= i < |matches| => matches[i]);
    assert list[..] == matches;
    ranked := Ranking.SortRecipes(list);
  }

  // ----- Store -----

  class RecipeService {
    /** The recipe repository: recipes by id. */
    var recipes: map<int, Recipe>
    /** The user repository: users by id. */
    var users: map<int, User>
    /** The ids the service has looked up in the user repository, oldest first. */
    ghost var userLookups: seq<int>

    /** Every record is stored under its own id. */
    ghost predicate Valid()
      reads this
    {
      && (forall id :: id in recipes ==> recipes[id].id == id)
      && (forall id :: id in users ==> users[id].id == id)
    }

    constructor (recipes: map<int, Recipe>, users: map<int, User>)
      requires forall id :: id in recipes ==> recipes[id].id == id
      requires forall id :: id in users ==> users[id].id == id
      ensures Valid()
      ensures this.recipes == recipes && this.users == users && userLookups == []
    {
      this.recipes := recipes;
      this.users := users;
      userLookups := [];
    }

    /** `addRecipe`: saves the recipe under its id and returns it. */
    method AddRecipe(recipe: Recipe) returns (saved: Recipe)
      requires Valid()
      modifies this
      ensures Valid()
      ensures saved == recipe && GetRecipeById(recipe.id) == Ok(recipe)
      ensures recipes == old(recipes)[recipe.id := recipe]
      ensures users == old(users) && userLookups == old(userLookups)
    {
      recipes := recipes[recipe.id := recipe];
      saved := recipe;
    }

    /** `getAllRecipes`: every stored recipe. */
    function GetAllRecipes(): (all: set<Recipe>)
      reads this
      requires Valid()
      ensures forall id :: id in recipes ==> recipes[id] in all
      ensures forall r :: r in all ==> r.id in recipes && recipes[r.id] == r
    {
      set id | id in recipes :: recipes[id]
    }

    /** `getRecipesByAuthor`: the stored recipes whose author is `author`. */
    function GetRecipesByAuthor(author: User): (found: set<Recipe>)
      reads this
      requires Valid()
      ensures found <= GetAllRecipes()
      ensures forall id :: id in recipes && recipes[id].authorId == author.id ==> recipes[id] in found
      ensures forall r :: r in found ==> r.authorId == author.id
    {
      set id | id in recipes && recipes[id].authorId == author.id :: recipes[id]
    }

    /** `getRecipeById`: the recipe stored under `recipeId`, or NotFound. */
    function GetRecipeById(recipeId: int): (r: Result<Recipe>)
      reads this
      requires Valid()
      ensures r.Ok? <==> recipeId in recipes
      ensures r.Ok? ==> r.value == recipes[recipeId] && r.value.id == recipeId
      ensures r.Err? ==> r.error == RecipeNotFound(recipeId)
    {
      if recipeId in recipes then Ok(recipes[recipeId]) else Err(RecipeNotFound(recipeId))
    }

    /** `getRecipesByKeywords`: recipes ranked by how many keywords returned them. */
    method GetRecipesByKeywords(keywords: seq<string>, getRecipesByKey: string -> seq<Recipe>)
      returns (ranked: seq<Recipe>)
      ensures ranked == Ranking.Rank(Matches(keywords, getRecipesByKey))
      ensures Ranking.IsRanking(Matches(keywords, getRecipesByKey), ranked)
    {
      ranked := SearchByTerms(keywords, getRecipesByKey);
    }

    /** `getRecipesByIngredients`: recipes ranked by how many ingredients returned them. */
    method GetRecipesByIngredients(ingredients: seq<string>, getRecipesByIngredients: string -> seq<Recipe>)
      returns (ranked: seq<Recipe>)
      ensures ranked == Ranking.Rank(Matches(ingredients, getRecipesByIngredients))
      ensures Ranking.IsRanking(Matches(ingredients, getRecipesByIngredients), ranked)
    {
      ranked := SearchByTerms(ingredients, getRecipesByIngredients);
    }

    /**
     * `updateRecipe`: looks the recipe up, then the author; on success gives
     * the stored recipe the new keywords, ingredients, steps and author,
     * keeping its id, saves it and returns it. Nothing is saved on failure,
     * and the author is not looked up when the recipe is missing.
     */
    method UpdateRecipe(recipeId: int, updatedRecipe: Recipe, authorId: int) returns (r: Result<Recipe>)
      requires Valid()
      modifies this
      ensures Valid()
      ensures users == old(users)
      ensures recipeId !in old(recipes) ==>
        r == Err(RecipeNotFound(recipeId)) && recipes == old(recipes) && userLookups == old(userLookups)
      ensures recipeId in old(recipes) ==> userLookups == old(userLookups) + [authorId]
      ensures recipeId in old(recipes) && authorId !in users ==>
        r == Err(UserNotFound(authorId)) && recipes == old(recipes)
      ensures r.Ok? <==> recipeId in old(recipes) && authorId in users
      ensures r.Ok? ==>
        && r.value.id == recipeId
        && r.value.keywords == updatedRecipe.keywords
        && r.value.ingredients == updatedRecipe.ingredients
        && r.value.steps == updatedRecipe.steps
        && r.value.authorId == authorId
        && recipes == old(recipes)[recipeId := r.value]
        && GetRecipeById(recipeId) == r
    {
      if recipeId !in recipes {
        return Err(RecipeNotFound(recipeId));
      }
      var existing := recipes[recipeId];
      userLookups := userLookups + [authorId];
      if authorId !in users {
        return Err(UserNotFound(authorId));
      }
      var author := users[authorId];
      var saved := existing.(
        keywords := updatedRecipe.keywords,
        ingredients := updatedRecipe.ingredients,
        steps := updatedRecipe.steps,
        authorId := author.id);
      recipes := recipes[saved.id := saved];
      r := Ok(saved);
    }

    /** `deleteRecipe`: removes the recipe stored under `recipeId`, or reports NotFound. */
    method DeleteRecipe(recipeId: int) returns (r: Result<()>)
      requires Valid()
      modifies this
      ensures Valid()
      ensures users == old(users) && userLookups == old(userLookups)
      ensures r.Ok? <==> recipeId in old(recipes)
      ensures r.Err? ==> r.error == RecipeNotFound(recipeId) && recipes == old(recipes)
      ensures r.Ok? ==>
        && recipes == old(recipes) - {recipeId}
        && |recipes| == |old(recipes)| - 1
        && GetRecipeById(recipeId) == Err(RecipeNotFound(recipeId))
      ensures forall id :: id != recipeId ==> GetRecipeById(id) == old(GetRecipeById(id))
    {
      if recipeId !in recipes {
        return Err(RecipeNotFound(recipeId));
      }
      var existing := recipes[recipeId];
      recipes := recipes - {existing.id};
      r := Ok(());
    }
  }
}
