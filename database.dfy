/** The database the API reads and writes, held in memory: one field per
    table, and the integrity the unique fields, unique constraints and
    foreign keys of backend/recipes/models.py and backend/users/models.py
    guarantee. Also the row-level effects of the ORM calls the serializers
    make (`tags.set`, `bulk_create`, `ingredients.clear`,
    `update_or_create`). */
module Database {
  import opened Common
  import opened UserModels
  import opened RecipeModels

  /** Which of the two (user, recipe) tables an operation works on: the
      model class the views pass down as `cur_model`. */
  datatype MarkTable = Favorites | ShoppingCarts

  /** One validated entry of a recipe's ingredient list: an existing
      ingredient and its amount. */
  datatype IngredientAmount = IngredientAmount(id: IngredientId, amount: int)

  // ---- integrity of each table ----

  predicate RecipesRefer(recipes: map<RecipeId, Recipe>, users: map<UserId, User>) {
    forall id | id in recipes :: recipes[id].id == id && recipes[id].author in users
  }

  predicate TagRowsRefer(rows: seq<RecipeTag>, recipes: map<RecipeId, Recipe>, tags: map<TagId, Tag>) {
    forall i :: 0 <= i < |rows| ==> rows[i].recipe in recipes && rows[i].tag in tags
  }

  predicate IngredientRowsRefer(rows: seq<RecipeIngredient>, recipes: map<RecipeId, Recipe>,
                                ingredients: map<IngredientId, Ingredient>)
  {
    forall i :: 0 <= i < |rows| ==> rows[i].recipe in recipes && rows[i].ingredient in ingredients
  }

  predicate MarksRefer(marks: seq<Mark>, users: map<UserId, User>, recipes: map<RecipeId, Recipe>) {
    forall i :: 0 <= i < |marks| ==> marks[i].user in users && marks[i].recipe in recipes
  }

  predicate SubscriptionsRefer(subscriptions: seq<Subscription>, users: map<UserId, User>) {
    forall i :: 0 <= i < |subscriptions| ==>
      subscriptions[i].user in users && subscriptions[i].author in users
  }

  class Store {
    var users: map<UserId, User>
    var tags: map<TagId, Tag>
    var ingredients: map<IngredientId, Ingredient>
    var recipes: map<RecipeId, Recipe>
    var recipeTags: seq<RecipeTag>
    var recipeIngredients: seq<RecipeIngredient>
    var favorites: seq<Mark>
    var carts: seq<Mark>
    var subscriptions: seq<Subscription>

    /** Every unique field and constraint holds and every foreign key
        points at an existing row. */
    ghost predicate Valid()
      reads this
    {
      && UsersUnique(users)
      && TagsUnique(tags)
      && IngredientsUnique(ingredients)
      && RecipesRefer(recipes, users)
      && TagRowsRefer(recipeTags, recipes, tags)
      && IngredientRowsRefer(recipeIngredients, recipes, ingredients)
      && MarksUnique(favorites) && MarksRefer(favorites, users, recipes)
      && MarksUnique(carts) && MarksRefer(carts, users, recipes)
      && SubscriptionsUnique(subscriptions) && SubscriptionsRefer(subscriptions, users)
    }

    /** The rows of the table `table` names. */
    function Marks(table: MarkTable): seq<Mark>
      reads this
    {
      match table
      case Favorites => favorites
      case ShoppingCarts => carts
    }

    /** An empty database. */
    constructor ()
      ensures Valid()
      ensures users == map[] && tags == map[] && ingredients == map[] && recipes == map[]
      ensures recipeTags == [] && recipeIngredients == []
      ensures favorites == [] && carts == [] && subscriptions == []
    {
      users, tags, ingredients, recipes := map[], map[], map[], map[];
      recipeTags, recipeIngredients := [], [];
      favorites, carts, subscriptions := [], [], [];
    }
  }

  // ---- adding and removing rows of the pair tables ----

  lemma MarkRemoveKeepsTableValid(marks: seq<Mark>, users: map<UserId, User>,
                                  recipes: map<RecipeId, Recipe>, row: Mark)
    requires MarksUnique(marks) && MarksRefer(marks, users, recipes)
    ensures MarksUnique(Without(marks, row)) && MarksRefer(Without(marks, row), users, recipes)
  {
    WithoutKeepsDistinct(marks, row);
  }

  lemma SubscriptionAddKeepsTableValid(subscriptions: seq<Subscription>, users: map<UserId, User>,
                                       row: Subscription)
    requires SubscriptionsUnique(subscriptions) && SubscriptionsRefer(subscriptions, users)
    requires row !in subscriptions && row.user in users && row.author in users
    ensures SubscriptionsUnique(subscriptions + [row]) && SubscriptionsRefer(subscriptions + [row], users)
  {
    DistinctSnoc(subscriptions, row);
  }

  lemma SubscriptionRemoveKeepsTableValid(subscriptions: seq<Subscription>, users: map<UserId, User>,
                                          row: Subscription)
    requires SubscriptionsUnique(subscriptions) && SubscriptionsRefer(subscriptions, users)
    ensures SubscriptionsUnique(Without(subscriptions, row))
    ensures SubscriptionsRefer(Without(subscriptions, row), users)
  {
    WithoutKeepsDistinct(subscriptions, row);
  }

  // ---- the recipe -> tag association ----

  /** The rows `recipe.tags.set(tags)` adds for a recipe that has none,
      one per requested tag. The order of the rows is not one Django fixes:
      only the set of tags they give is observed (`TagsOf`). */
  function TagRows(recipe: RecipeId, tags: seq<TagId>): (r: seq<RecipeTag>)
    ensures |r| == |tags|
    ensures forall i :: 0 <= i < |r| ==> r[i] == RecipeTag(recipe, tags[i])
  {
    seq(|tags|, i requires 0 <= i < |tags| => RecipeTag(recipe, tags[i]))
  }

  /** The tags of `recipe` according to the rows. */
  function TagsOf(rows: seq<RecipeTag>, recipe: RecipeId): set<TagId> {
    set row | row in rows && row.recipe == recipe :: row.tag
  }

  /** The rows for a new recipe give it exactly the requested tags, and
      leave every other recipe's tags as they were. */
  lemma TagsAfterCreate(rows: seq<RecipeTag>, recipe: RecipeId, tags: seq<TagId>, other: RecipeId)
    requires forall i :: 0 <= i < |rows| ==> rows[i].recipe != recipe
    requires other != recipe
    ensures TagsOf(rows + TagRows(recipe, tags), recipe) == set t | t in tags
    ensures TagsOf(rows + TagRows(recipe, tags), other) == TagsOf(rows, other)
  {
    var all := rows + TagRows(recipe, tags);
    forall t | t in tags ensures t in TagsOf(all, recipe) {
      var k :| 0 <= k < |tags| && tags[k] == t;
      assert all[|rows| + k] == RecipeTag(recipe, t);
    }
  }

  /** `recipe.tags.set(tags)`: afterwards the recipe's rows are exactly one
      per requested tag. (Django keeps the rows that are already right and
      changes only the rest; the resulting set of tags is the same.) */
  function SetTags(rows: seq<RecipeTag>, recipe: RecipeId, tags: seq<TagId>): seq<RecipeTag> {
    Filter(rows, (row: RecipeTag) => row.recipe != recipe) + TagRows(recipe, tags)
  }

  /** After `set`, the recipe has exactly the requested tags and every other
      recipe keeps its own. */
  lemma SetTagsEffect(rows: seq<RecipeTag>, recipe: RecipeId, tags: seq<TagId>, other: RecipeId)
    requires other != recipe
    ensures TagsOf(SetTags(rows, recipe, tags), recipe) == set t | t in tags
    ensures TagsOf(SetTags(rows, recipe, tags), other) == TagsOf(rows, other)
  {
    var kept := Filter(rows, (row: RecipeTag) => row.recipe != recipe);
    TagsAfterCreate(kept, recipe, tags, other);
    forall t | t in TagsOf(rows, other) ensures t in TagsOf(kept, other) {
      var row :| row in rows && row.recipe == other && row.tag == t;
      var k :| 0 <= k < |rows| && rows[k] == row;
    }
  }

  /** On a recipe with no tag rows yet, `set` only appends. */
  lemma SetTagsOnNewRecipe(rows: seq<RecipeTag>, recipe: RecipeId, tags: seq<TagId>)
    requires forall i :: 0 <= i < |rows| ==> rows[i].recipe != recipe
    ensures SetTags(rows, recipe, tags) == rows + TagRows(recipe, tags)
  {
    FilterAll(rows, (row: RecipeTag) => row.recipe != recipe);
  }

  // ---- the recipe -> ingredient association ----

  /** The rows `bulk_create` inserts for a recipe's ingredient list, in
      list order. */
  function IngredientRows(recipe: RecipeId, items: seq<IngredientAmount>): (r: seq<RecipeIngredient>)
    ensures |r| == |items|
    ensures forall i :: 0 <= i < |r| ==>
              r[i] == RecipeIngredient(recipe, items[i].id, items[i].amount)
  {
    seq(|items|, i requires 0 <= i < |items| =>
      RecipeIngredient(recipe, items[i].id, items[i].amount))
  }

  /** The entry one row contributes to the ingredient list of `recipe`. */
  function RowEntry(row: RecipeIngredient, recipe: RecipeId): seq<IngredientAmount> {
    if row.recipe == recipe then [IngredientAmount(row.ingredient, row.amount)] else []
  }

  /** The ingredient list of `recipe` according to the rows, in row order. */
  function IngredientsOf(rows: seq<RecipeIngredient>, recipe: RecipeId): seq<IngredientAmount> {
    if rows == [] then [] else RowEntry(rows[0], recipe) + IngredientsOf(rows[1..], recipe)
  }

  lemma {:induction false} IngredientsOfAppend(a: seq<RecipeIngredient>, b: seq<RecipeIngredient>,
                                               recipe: RecipeId)
    ensures IngredientsOf(a + b, recipe) == IngredientsOf(a, recipe) + IngredientsOf(b, recipe)
  {
    if a == [] {
      assert a + b == b;
    } else {
      var ab := a + b;
      assert ab[0] == a[0] && ab[1..] == a[1..] + b;
      IngredientsOfAppend(a[1..], b, recipe);
      var h := RowEntry(a[0], recipe);
      var x := IngredientsOf(a[1..], recipe);
      var y := IngredientsOf(b, recipe);
      calc {
        IngredientsOf(ab, recipe);
        h + IngredientsOf(a[1..] + b, recipe);
        h + (x + y);
        { assert h + (x + y) == (h + x) + y; }
        IngredientsOf(a, recipe) + y;
      }
    }
  }

  lemma {:induction false} IngredientsOfNone(rows: seq<RecipeIngredient>, recipe: RecipeId)
    requires forall i :: 0 <= i < |rows| ==> rows[i].recipe != recipe
    ensures IngredientsOf(rows, recipe) == []
  {
    if rows != [] { IngredientsOfNone(rows[1..], recipe); }
  }

  /** The rows written for `recipe` read back as the list they were made
      from; they hold nothing for any other recipe. */
  lemma {:induction false} IngredientRowsReadBack(recipe: RecipeId, items: seq<IngredientAmount>, other: RecipeId)
    requires other != recipe
    ensures IngredientsOf(IngredientRows(recipe, items), recipe) == items
    ensures IngredientsOf(IngredientRows(recipe, items), other) == []
  {
    if items != [] {
      var rows := IngredientRows(recipe, items);
      assert rows[1..] == IngredientRows(recipe, items[1..]);
      IngredientRowsReadBack(recipe, items[1..], other);
    }
  }

  /** A new recipe's rows give it exactly the entries it was created with,
      with their amounts, and leave every other recipe's list as it was. */
  lemma IngredientsAfterCreate(rows: seq<RecipeIngredient>, recipe: RecipeId,
                               items: seq<IngredientAmount>, other: RecipeId)
    requires forall i :: 0 <= i < |rows| ==> rows[i].recipe != recipe
    requires other != recipe
    ensures IngredientsOf(rows + IngredientRows(recipe, items), recipe) == items
    ensures IngredientsOf(rows + IngredientRows(recipe, items), other) == IngredientsOf(rows, other)
  {
    IngredientsOfAppend(rows, IngredientRows(recipe, items), recipe);
    IngredientsOfAppend(rows, IngredientRows(recipe, items), other);
    IngredientsOfNone(rows, recipe);
    IngredientRowsReadBack(recipe, items, other);
  }

  /** What `recipe.ingredients.clear()` leaves: the rows of other recipes. */
  function ClearIngredients(rows: seq<RecipeIngredient>, recipe: RecipeId): (r: seq<RecipeIngredient>)
    ensures forall i :: 0 <= i < |r| ==> r[i].recipe != recipe
  {
    Filter(rows, (row: RecipeIngredient) => row.recipe != recipe)
  }

  lemma {:induction false} IngredientsOfCleared(rows: seq<RecipeIngredient>, recipe: RecipeId, other: RecipeId)
    requires other != recipe
    ensures IngredientsOf(ClearIngredients(rows, recipe), other) == IngredientsOf(rows, other)
  {
    if rows != [] {
      IngredientsOfCleared(rows[1..], recipe, other);
    }
  }

  /** The index of the first row for (recipe, ingredient), if any: the row
      `RecipeIngredient.objects.get(recipe=..., ingredient=...)` finds. */
  function FindRow(rows: seq<RecipeIngredient>, recipe: RecipeId, ingredient: IngredientId): (r: Option<nat>)
    ensures r.Some? ==> r.value < |rows| && rows[r.value].recipe == recipe
                        && rows[r.value].ingredient == ingredient
    ensures r.None? <==> forall i :: 0 <= i < |rows| ==>
                           !(rows[i].recipe == recipe && rows[i].ingredient == ingredient)
  {
    if rows == [] then None
    else if rows[0].recipe == recipe && rows[0].ingredient == ingredient then Some(0)
    else match FindRow(rows[1..], recipe, ingredient)
      case None => None
      case Some(k) => Some(k + 1)
  }

  /** How many rows are for (recipe, ingredient). The through table has no
      unique constraint on the pair, so this can exceed one. */
  function MatchCount(rows: seq<RecipeIngredient>, recipe: RecipeId, ingredient: IngredientId): (r: nat)
    ensures r <= |rows|
    ensures r == 0 <==> FindRow(rows, recipe, ingredient).None?
  {
    if rows == [] then 0
    else (if rows[0].recipe == recipe && rows[0].ingredient == ingredient then 1 else 0)
         + MatchCount(rows[1..], recipe, ingredient)
  }

  /** `RecipeIngredient.objects.update_or_create(recipe=..., ingredient=...,
      defaults={'amount': amount})`: a new row is added when none matches,
      the one matching row gets the new amount and nothing else changes,
      and two or more matching rows make the lookup raise
      `MultipleObjectsReturned`, a server error. */
  function UpdateOrCreate(rows: seq<RecipeIngredient>, recipe: RecipeId,
                          ingredient: IngredientId, amount: int): (r: Result<seq<RecipeIngredient>, ServerError>)
    ensures r.Err? <==> MatchCount(rows, recipe, ingredient) >= 2
    ensures MatchCount(rows, recipe, ingredient) == 0 ==>
              r == Ok(rows + [RecipeIngredient(recipe, ingredient, amount)])
    ensures MatchCount(rows, recipe, ingredient) == 1 ==>
              var k := FindRow(rows, recipe, ingredient).value;
              r == Ok(rows[k := RecipeIngredient(recipe, ingredient, amount)])
  {
    if MatchCount(rows, recipe, ingredient) >= 2 then Err(ServerError)
    else match FindRow(rows, recipe, ingredient)
      case None => Ok(rows + [RecipeIngredient(recipe, ingredient, amount)])
      case Some(k) => Ok(rows[k := RecipeIngredient(recipe, ingredient, amount)])
  }

  /** The rows after the ingredient list of `recipe` is replaced by `items`:
      the update clears the old rows and then writes one row per entry. */
  function ReplaceIngredients(rows: seq<RecipeIngredient>, recipe: RecipeId,
                              items: seq<IngredientAmount>): seq<RecipeIngredient>
  {
    ClearIngredients(rows, recipe) + IngredientRows(recipe, items)
  }

  /** The ids of an ingredient list, `[item['id'] for item in data]`. */
  function IngredientIds(items: seq<IngredientAmount>): (r: seq<IngredientId>)
    ensures |r| == |items| && forall i :: 0 <= i < |items| ==> r[i] == items[i].id
  {
    seq(|items|, i requires 0 <= i < |items| => items[i].id)
  }

  /** One pass of the update loop: once the recipe's old rows are cleared,
      and as the ids are distinct, `update_or_create` for entry `i` finds
      no row and appends one, so the loop builds ReplaceIngredients row by
      row. */
  lemma UpdateOrCreateStep(cleared: seq<RecipeIngredient>, recipe: RecipeId,
                           items: seq<IngredientAmount>, i: int)
    requires forall k :: 0 <= k < |cleared| ==> cleared[k].recipe != recipe
    requires Distinct(IngredientIds(items)) && 0 <= i < |items|
    ensures UpdateOrCreate(cleared + IngredientRows(recipe, items[..i]), recipe, items[i].id, items[i].amount)
            == Ok(cleared + IngredientRows(recipe, items[..i + 1]))
  {
    var rows := cleared + IngredientRows(recipe, items[..i]);
    forall k | 0 <= k < |rows| ensures !(rows[k].recipe == recipe && rows[k].ingredient == items[i].id) {
      if k >= |cleared| {
        assert rows[k].ingredient == IngredientIds(items)[k - |cleared|];
      }
    }
    assert FindRow(rows, recipe, items[i].id).None?;
    assert IngredientRows(recipe, items[..i + 1])
           == IngredientRows(recipe, items[..i]) + [RecipeIngredient(recipe, items[i].id, items[i].amount)];
    assert rows + [RecipeIngredient(recipe, items[i].id, items[i].amount)]
           == cleared + IngredientRows(recipe, items[..i + 1]);
  }

  /** Replacing a recipe's ingredient rows keeps every foreign key valid
      when the recipe and the new ingredients exist. */
  lemma ReplaceIngredientsRefer(rows: seq<RecipeIngredient>, recipes: map<RecipeId, Recipe>,
                                ingredients: map<IngredientId, Ingredient>,
                                recipe: RecipeId, items: seq<IngredientAmount>)
    requires IngredientRowsRefer(rows, recipes, ingredients) && recipe in recipes
    requires forall i :: 0 <= i < |items| ==> items[i].id in ingredients
    ensures IngredientRowsRefer(ReplaceIngredients(rows, recipe, items), recipes, ingredients)
  {
  }

  /** After a replacement the recipe has exactly the new entries with their
      amounts, none of the earlier ones, and every other recipe keeps its
      list. */
  lemma ReplaceIngredientsEffect(rows: seq<RecipeIngredient>, recipe: RecipeId,
                                 items: seq<IngredientAmount>, other: RecipeId)
    requires other != recipe
    ensures IngredientsOf(ReplaceIngredients(rows, recipe, items), recipe) == items
    ensures IngredientsOf(ReplaceIngredients(rows, recipe, items), other) == IngredientsOf(rows, other)
  {
    IngredientsAfterCreate(ClearIngredients(rows, recipe), recipe, items, other);
    IngredientsOfCleared(rows, recipe, other);
  }
}
