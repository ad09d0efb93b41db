/** backend/api/views.py: the subscribe, favorite and shopping-cart actions
    and the shopping-cart download, as the status each request gets and
    the rows it leaves behind. The requesting user is authenticated (the
    permission classes refuse anonymous writes before these run). */
module Views {
  import opened Common
  import opened PyText
  import opened Mixins
  import opened QueryParams
  import opened UserModels
  import opened RecipeModels
  import opened Database
  import opened Serializers
  import opened Pdf

  /** The HTTP statuses these actions answer with. */
  datatype Status = Created | NoContent | BadRequest | NotFound | InternalServerError

  datatype Verb = Post | Delete

  // ---- CustomUserViewSet.subscribe ----

  /** The status of `subscribe` and the Subscription rows afterwards.
      `id` is what `int()` makes of the id in the URL: None when
      `validate_pk` refuses it, which gives 404, as does an id no user has.
      POST saves the row SubscribeSerializer validates (400 when it
      refuses) and then renders the author with their recipes; a
      `recipes_limit` that `get_recipes` cannot use raises there, after the
      save, so the answer is 500 and the row stays. DELETE removes the row
      (400 when there is none). */
  function SubscribeOutcome(users: map<UserId, User>, subscriptions: seq<Subscription>,
                            user: UserId, id: Option<int>, verb: Verb, params: Params): (r: (Status, seq<Subscription>))
    ensures id.None? || id.value !in users ==> r == (NotFound, subscriptions)
    ensures r.0 == Created || r.0 == InternalServerError <==>
              verb == Post && id.Some? && id.value in users
              && ValidateSubscription(subscriptions, user, id.value).Ok?
    ensures r.0 == InternalServerError <==>
              verb == Post && id.Some? && id.value in users
              && ValidateSubscription(subscriptions, user, id.value).Ok? && RecipesLimitFails(params)
    ensures r.0 == Created || r.0 == InternalServerError ==> r.1 == subscriptions + [Subscription(user, id.value)]
    ensures r.0 == NoContent <==>
              verb == Delete && id.Some? && id.value in users
              && Subscription(user, id.value) in subscriptions
    ensures r.0 == NoContent ==> r.1 == Without(subscriptions, Subscription(user, id.value))
    ensures r.0 == BadRequest || r.0 == NotFound ==> r.1 == subscriptions
  {
    if id.None? || id.value !in users then (NotFound, subscriptions)
    else
      var author := id.value;
      if verb == Post then
        match ValidateSubscription(subscriptions, user, author)
        case Err(_) => (BadRequest, subscriptions)
        case Ok(row) => (if RecipesLimitFails(params) then InternalServerError else Created, subscriptions + [row])
      else if Subscription(user, author) !in subscriptions then (BadRequest, subscriptions)
      else
        assert verb == Delete;
        (NoContent, Without(subscriptions, Subscription(user, author)))
  }

  /** `subscribe`; `params` is the request's query string. */
  method Subscribe(db: Store, user: UserId, id: string, verb: Verb, params: Params) returns (status: Status)
    requires db.Valid() && user in db.users
    modifies db`subscriptions
    ensures (status, db.subscriptions) == SubscribeOutcome(old(db.users), old(db.subscriptions), user, PyInt(id), verb, params)
    ensures db.Valid()
  {
    var parsed := PyInt(id);
    if parsed.None? || parsed.value !in db.users {
      return NotFound;
    }
    var author := parsed.value;
    if verb == Post {
      var v := ValidateSubscription(db.subscriptions, user, author);
      if v.Err? {
        return BadRequest;
      }
      SubscriptionAddKeepsTableValid(db.subscriptions, db.users, v.value);
      db.subscriptions := db.subscriptions + [v.value];
      // `serializer.data` renders the author through `get_recipes`
      if RecipesLimitFails(params) {
        return InternalServerError;
      }
      return Created;
    }
    var row := Subscription(user, author);
    if row !in db.subscriptions {
      return BadRequest;
    }
    SubscriptionRemoveKeepsTableValid(db.subscriptions, db.users, row);
    db.subscriptions := Without(db.subscriptions, row);
    status := NoContent;
  }

  /** Whatever the request, the table keeps its unique constraint, its
      foreign keys, and has no row of a user following themself. */
  lemma SubscribeKeepsInvariants(users: map<UserId, User>, subscriptions: seq<Subscription>,
                                 user: UserId, id: Option<int>, verb: Verb, params: Params)
    requires SubscriptionsUnique(subscriptions) && SubscriptionsRefer(subscriptions, users)
    requires NoSelfSubscription(subscriptions) && user in users
    ensures var after := SubscribeOutcome(users, subscriptions, user, id, verb, params).1;
            SubscriptionsUnique(after) && SubscriptionsRefer(after, users) && NoSelfSubscription(after)
  {
    var r := SubscribeOutcome(users, subscriptions, user, id, verb, params);
    if r.0 == Created || r.0 == InternalServerError {
      ValidatedSubscriptionKeepsInvariants(subscriptions, user, id.value);
      SubscriptionAddKeepsTableValid(subscriptions, users, Subscription(user, id.value));
    } else if r.0 == NoContent {
      SubscriptionRemoveKeepsTableValid(subscriptions, users, Subscription(user, id.value));
    }
  }

  /** After a POST that saves the row the user is subscribed to the
      author, even when rendering the answer fails with 500; after a
      successful DELETE they are not. */
  lemma SubscribeSetsStatus(users: map<UserId, User>, subscriptions: seq<Subscription>,
                            user: UserId, author: UserId, verb: Verb, params: Params)
    ensures var r := SubscribeOutcome(users, subscriptions, user, Some(author), verb, params);
            && (r.0 == Created || r.0 == InternalServerError ==> IsSubscribed(Some(Authenticated(user)), author, r.1))
            && (r.0 == NoContent ==> !IsSubscribed(Some(Authenticated(user)), author, r.1))
  {
    var r := SubscribeOutcome(users, subscriptions, user, Some(author), verb, params);
    if r.0 == Created || r.0 == InternalServerError {
      assert r.1[|subscriptions|] == Subscription(user, author);
    }
  }

  /** Unsubscribing right after subscribing succeeds and restores the table
      as it was. */
  lemma SubscribeThenUnsubscribe(users: map<UserId, User>, subscriptions: seq<Subscription>,
                                 user: UserId, author: UserId, params: Params)
    requires var status := SubscribeOutcome(users, subscriptions, user, Some(author), Post, params).0;
             status == Created || status == InternalServerError
    ensures var after := SubscribeOutcome(users, subscriptions, user, Some(author), Post, params).1;
            SubscribeOutcome(users, after, user, Some(author), Delete, params) == (NoContent, subscriptions)
  {
    var row := Subscription(user, author);
    var after := subscriptions + [row];
    assert row in after;
    WithoutAppended(subscriptions, row);
  }

  // ---- RecipeViewSet: add_recipe_to_fav_cart, delete_recipe_from_fav_cart ----

  /** `add_recipe_to_fav_cart`: FavoriteCartSerializer's errors, a missing
      recipe included, are validation errors and give 400. */
  function AddStatus(result: Result<ShortRecipe, MarkError>): (s: Status)
    ensures s == Created <==> result.Ok?
    ensures s != Created ==> s == BadRequest
  {
    if result.Ok? then Created else BadRequest
  }

  method AddRecipeToFavCart(db: Store, table: MarkTable, user: UserId, recipe: RecipeId)
    returns (status: Status)
    requires db.Valid() && user in db.users
    modifies db`favorites, db`carts
    ensures var outcome := AddMarkOutcome(old(db.recipes), old(db.Marks(table)), user, recipe);
            status == AddStatus(outcome.0) && db.Marks(table) == outcome.1
    ensures table == Favorites ==> db.carts == old(db.carts)
    ensures table == ShoppingCarts ==> db.favorites == old(db.favorites)
    ensures db.Valid()
  {
    var result := FavoriteCartValidate(db, table, user, recipe);
    status := AddStatus(result);
  }

  /** The status of `delete_recipe_from_fav_cart` and the rows of the table
      afterwards: 404 for a missing recipe, 400 when the user has no row
      for it, otherwise every (user, recipe) row is deleted and 204. */
  function DeleteMarkOutcome(recipes: map<RecipeId, Recipe>, marks: seq<Mark>, user: UserId,
                             recipe: RecipeId): (r: (Status, seq<Mark>))
    ensures recipe !in recipes ==> r == (NotFound, marks)
    ensures r.0 == NoContent <==> recipe in recipes && Mark(user, recipe) in marks
    ensures r.0 == NoContent ==> r.1 == Without(marks, Mark(user, recipe))
    ensures r.0 != NoContent ==> r.1 == marks && r.0 != Created
  {
    if recipe !in recipes then (NotFound, marks)
    else if Mark(user, recipe) !in marks then (BadRequest, marks)
    else (NoContent, Without(marks, Mark(user, recipe)))
  }

  method DeleteRecipeFromFavCart(db: Store, table: MarkTable, user: UserId, recipe: RecipeId)
    returns (status: Status)
    requires db.Valid()
    modifies db`favorites, db`carts
    ensures (status, db.Marks(table)) == DeleteMarkOutcome(old(db.recipes), old(db.Marks(table)), user, recipe)
    ensures table == Favorites ==> db.carts == old(db.carts)
    ensures table == ShoppingCarts ==> db.favorites == old(db.favorites)
    ensures db.Valid()
  {
    if recipe !in db.recipes {
      return NotFound;
    }
    var row := Mark(user, recipe);
    if row !in db.Marks(table) {
      return BadRequest;
    }
    MarkRemoveKeepsTableValid(db.Marks(table), db.users, db.recipes, row);
    if table == Favorites {
      db.favorites := Without(db.favorites, row);
    } else {
      db.carts := Without(db.carts, row);
    }
    status := NoContent;
  }

  /** Deleting removes the user's row for the recipe and no other row. */
  lemma DeleteMarkRemovesOnlyThatRow(recipes: map<RecipeId, Recipe>, marks: seq<Mark>, user: UserId,
                                     recipe: RecipeId, other: Mark)
    requires other != Mark(user, recipe)
    ensures other in DeleteMarkOutcome(recipes, marks, user, recipe).1 <==> other in marks
    ensures Mark(user, recipe) !in DeleteMarkOutcome(recipes, marks, user, recipe).1 || recipe !in recipes
  {
    var r := DeleteMarkOutcome(recipes, marks, user, recipe);
    if r.0 == NoContent && other in marks {
      var i :| 0 <= i < |marks| && marks[i] == other;
    }
  }

  // ---- RecipeViewSet.favorite, RecipeViewSet.shopping_cart ----

  /** The status of `favorite` or `shopping_cart` on `table` and its rows
      afterwards. `pk` is what `int()` makes of the id in the URL: None
      when `validate_pk` refuses it, which gives 400 here (404 in
      `subscribe`). Otherwise POST adds and DELETE removes. */
  function MarkActionOutcome(recipes: map<RecipeId, Recipe>, marks: seq<Mark>, user: UserId,
                             pk: Option<int>, verb: Verb): (r: (Status, seq<Mark>))
    ensures pk.None? ==> r == (BadRequest, marks)
    ensures pk.Some? && verb == Post ==>
              var outcome := AddMarkOutcome(recipes, marks, user, pk.value);
              r == (AddStatus(outcome.0), outcome.1)
    ensures pk.Some? && verb == Delete ==> r == DeleteMarkOutcome(recipes, marks, user, pk.value)
  {
    match pk
    case None => (BadRequest, marks)
    case Some(recipe) =>
      if verb == Post then
        var outcome := AddMarkOutcome(recipes, marks, user, recipe);
        (AddStatus(outcome.0), outcome.1)
      else DeleteMarkOutcome(recipes, marks, user, recipe)
  }

  method MarkAction(db: Store, table: MarkTable, user: UserId, pk: string, verb: Verb)
    returns (status: Status)
    requires db.Valid() && user in db.users
    modifies db`favorites, db`carts
    ensures (status, db.Marks(table)) == MarkActionOutcome(old(db.recipes), old(db.Marks(table)), user, PyInt(pk), verb)
    ensures table == Favorites ==> db.carts == old(db.carts)
    ensures table == ShoppingCarts ==> db.favorites == old(db.favorites)
    ensures db.Valid()
  {
    if !ValidatePk(pk) {
      return BadRequest;
    }
    var recipe := PyInt(pk).value;
    if verb == Post {
      status := AddRecipeToFavCart(db, table, user, recipe);
    } else {
      status := DeleteRecipeFromFavCart(db, table, user, recipe);
    }
  }

  /** `favorite`: acts on Favorite only. */
  method Favorite(db: Store, user: UserId, pk: string, verb: Verb) returns (status: Status)
    requires db.Valid() && user in db.users
    modifies db`favorites, db`carts
    ensures (status, db.favorites) == MarkActionOutcome(old(db.recipes), old(db.favorites), user, PyInt(pk), verb)
    ensures db.carts == old(db.carts)
    ensures db.Valid()
  {
    status := MarkAction(db, Favorites, user, pk, verb);
  }

  /** `shopping_cart`: acts on ShoppingCart only. */
  method ShoppingCart(db: Store, user: UserId, pk: string, verb: Verb) returns (status: Status)
    requires db.Valid() && user in db.users
    modifies db`favorites, db`carts
    ensures (status, db.carts) == MarkActionOutcome(old(db.recipes), old(db.carts), user, PyInt(pk), verb)
    ensures db.favorites == old(db.favorites)
    ensures db.Valid()
  {
    status := MarkAction(db, ShoppingCarts, user, pk, verb);
  }

  /** The same malformed id is answered differently by the recipe actions
      (400) and by `subscribe` (404), and changes nothing in either. */
  lemma MalformedIdStatuses(users: map<UserId, User>, subscriptions: seq<Subscription>,
                            recipes: map<RecipeId, Recipe>, marks: seq<Mark>,
                            user: UserId, pk: string, verb: Verb, params: Params)
    requires forall k :: 0 <= k < |pk| ==> !IsDigit(pk[k])
    ensures MarkActionOutcome(recipes, marks, user, PyInt(pk), verb) == (BadRequest, marks)
    ensures SubscribeOutcome(users, subscriptions, user, PyInt(pk), verb, params) == (NotFound, subscriptions)
  {
    ValidatePkNeedsDigit(pk);
  }

  /** An id with an information separator in front, such as "\x1c5", is
      malformed to `int()`, so it too gets 400 from the recipe actions and
      404 from `subscribe`, changing nothing. */
  lemma SeparatorPaddedIdStatuses(users: map<UserId, User>, subscriptions: seq<Subscription>,
                                  recipes: map<RecipeId, Recipe>, marks: seq<Mark>,
                                  user: UserId, n: int, verb: Verb, params: Params)
    ensures var pk := "\U{1C}" + DecimalString(n);
            MarkActionOutcome(recipes, marks, user, PyInt(pk), verb) == (BadRequest, marks)
            && SubscribeOutcome(users, subscriptions, user, PyInt(pk), verb, params) == (NotFound, subscriptions)
  {
    SeparatorStrippedButRefused(n);
  }

  /** A recipe that does not exist gives 400 when added but 404 when
      removed. */
  lemma MissingRecipeStatuses(recipes: map<RecipeId, Recipe>, marks: seq<Mark>, user: UserId, recipe: RecipeId)
    requires recipe !in recipes
    ensures MarkActionOutcome(recipes, marks, user, Some(recipe), Post) == (BadRequest, marks)
    ensures MarkActionOutcome(recipes, marks, user, Some(recipe), Delete) == (NotFound, marks)
  {
  }

  /** Removing right after adding succeeds and restores the table. */
  lemma AddThenRemove(recipes: map<RecipeId, Recipe>, marks: seq<Mark>, user: UserId, recipe: RecipeId)
    requires MarkActionOutcome(recipes, marks, user, Some(recipe), Post).0 == Created
    ensures var after := MarkActionOutcome(recipes, marks, user, Some(recipe), Post).1;
            MarkActionOutcome(recipes, after, user, Some(recipe), Delete) == (NoContent, marks)
  {
    var row := Mark(user, recipe);
    assert row in marks + [row];
    WithoutAppended(marks, row);
  }

  /** Adding twice in a row: the second request is refused and changes
      nothing. */
  lemma AddTwiceRefused(recipes: map<RecipeId, Recipe>, marks: seq<Mark>, user: UserId, recipe: RecipeId)
    requires MarkActionOutcome(recipes, marks, user, Some(recipe), Post).0 == Created
    ensures var after := MarkActionOutcome(recipes, marks, user, Some(recipe), Post).1;
            MarkActionOutcome(recipes, after, user, Some(recipe), Post) == (BadRequest, after)
  {
    var row := Mark(user, recipe);
    assert row in marks + [row];
  }

  // ---- RecipeViewSet.download_shopping_cart ----

  /** `[item.recipe.id for item in shopping_cart]`, as the set `recipe__in`
      tests against. */
  function CartRecipes(carts: seq<Mark>, user: UserId): (r: set<RecipeId>)
    ensures forall id :: id in r <==> Mark(user, id) in carts
  {
    set i | 0 <= i < |carts| && carts[i].user == user :: carts[i].recipe
  }

  /** `Sum('amount')` over the rows of the cart's recipes that use
      `ingredient`. */
  function SumAmounts(rows: seq<RecipeIngredient>, recipes: set<RecipeId>, ingredient: IngredientId): int {
    if rows == [] then 0
    else
      var last := rows[|rows| - 1];
      SumAmounts(rows[..|rows| - 1], recipes, ingredient)
      + (if last.recipe in recipes && last.ingredient == ingredient then last.amount else 0)
  }

  /** Whether some row of the cart's recipes uses `ingredient`. */
  predicate Uses(rows: seq<RecipeIngredient>, recipes: set<RecipeId>, ingredient: IngredientId) {
    exists i :: 0 <= i < |rows| && rows[i].recipe in recipes && rows[i].ingredient == ingredient
  }

  /** `.values('ingredient').annotate(amount=Sum('amount'))`: one group per
      ingredient that some row of the cart's recipes uses, with the sum of
      those rows' amounts. */
  function CartTotals(rows: seq<RecipeIngredient>, recipes: set<RecipeId>): (r: map<IngredientId, int>)
    ensures forall k :: k in r <==> Uses(rows, recipes, k)
  {
    var keys := set i | 0 <= i < |rows| && rows[i].recipe in recipes :: rows[i].ingredient;
    map k | k in keys :: SumAmounts(rows, recipes, k)
  }

  /** Rows of recipes outside the cart, or of other ingredients, add
      nothing. */
  lemma {:induction false} SumAmountsUnused(rows: seq<RecipeIngredient>, recipes: set<RecipeId>, ingredient: IngredientId)
    requires !Uses(rows, recipes, ingredient)
    ensures SumAmounts(rows, recipes, ingredient) == 0
  {
    if rows != [] {
      var init := rows[..|rows| - 1];
      assert !Uses(init, recipes, ingredient) by {
        forall i | 0 <= i < |init| ensures !(init[i].recipe in recipes && init[i].ingredient == ingredient) {
          assert init[i] == rows[i];
        }
      }
      SumAmountsUnused(init, recipes, ingredient);
    }
  }

  /** The total over two carts with no recipe in common is the sum of their
      totals: each recipe in the cart contributes its own amounts. */
  lemma {:induction false} SumAmountsUnion(rows: seq<RecipeIngredient>, a: set<RecipeId>, b: set<RecipeId>,
                                           ingredient: IngredientId)
    requires a !! b
    ensures SumAmounts(rows, a + b, ingredient) == SumAmounts(rows, a, ingredient) + SumAmounts(rows, b, ingredient)
  {
    if rows != [] {
      SumAmountsUnion(rows[..|rows| - 1], a, b, ingredient);
    }
  }

  /** The total for one recipe that lists `ingredient` once, with `amount`,
      is that amount. */
  lemma {:induction false} SumAmountsOfOneRow(rows: seq<RecipeIngredient>, recipe: RecipeId,
                                              ingredient: IngredientId, k: int)
    requires 0 <= k < |rows| && rows[k].recipe == recipe && rows[k].ingredient == ingredient
    requires forall i :: 0 <= i < |rows| && i != k ==> !(rows[i].recipe == recipe && rows[i].ingredient == ingredient)
    ensures SumAmounts(rows, {recipe}, ingredient) == rows[k].amount
  {
    var init := rows[..|rows| - 1];
    if k == |rows| - 1 {
      assert !Uses(init, {recipe}, ingredient) by {
        forall i | 0 <= i < |init| ensures !(init[i].recipe in {recipe} && init[i].ingredient == ingredient) {
          assert init[i] == rows[i];
        }
      }
      SumAmountsUnused(init, {recipe}, ingredient);
    } else {
      forall i | 0 <= i < |init| && i != k ensures !(init[i].recipe == recipe && init[i].ingredient == ingredient) {
        assert init[i] == rows[i];
      }
      SumAmountsOfOneRow(init, recipe, ingredient, k);
    }
  }

  /** The groups in the order the query yields them, as PDF rows. */
  function CartItems(order: seq<IngredientId>, totals: map<IngredientId, int>): (r: seq<CartItem>)
    requires forall i :: 0 <= i < |order| ==> order[i] in totals
    ensures |r| == |order|
    ensures forall i :: 0 <= i < |order| ==> r[i] == CartItem(order[i], totals[order[i]])
  {
    seq(|order|, i requires 0 <= i < |order| => CartItem(order[i], totals[order[i]]))
  }

  /** Every ingredient a stored row mentions exists. */
  lemma CartIngredientsExist(rows: seq<RecipeIngredient>, recipes: map<RecipeId, Recipe>,
                             ingredients: map<IngredientId, Ingredient>, cart: set<RecipeId>,
                             order: seq<IngredientId>)
    requires IngredientRowsRefer(rows, recipes, ingredients)
    requires forall i :: 0 <= i < |order| ==> order[i] in CartTotals(rows, cart)
    ensures Known(CartItems(order, CartTotals(rows, cart)), ingredients)
  {
    var items := CartItems(order, CartTotals(rows, cart));
    forall i | 0 <= i < |items| ensures items[i].ingredient in ingredients {
      assert Uses(rows, cart, order[i]);
    }
  }

  /** `download_shopping_cart`: aggregates the user's cart and draws it.
      The database yields the groups in an order of its own choosing,
      passed in as `order`: each ingredient of the aggregation once. */
  method DownloadShoppingCart(db: Store, user: UserId, order: seq<IngredientId>) returns (pdf: Canvas)
    requires db.Valid()
    requires Distinct(order)
    requires forall i :: 0 <= i < |order| ==> order[i] in CartTotals(db.recipeIngredients, CartRecipes(db.carts, user))
    requires forall k | k in CartTotals(db.recipeIngredients, CartRecipes(db.carts, user)) :: k in order
    ensures fresh(pdf)
    ensures var totals := CartTotals(db.recipeIngredients, CartRecipes(db.carts, user));
            Known(CartItems(order, totals), db.ingredients)
            && pdf.ops == PdfOps(CartItems(order, totals), db.ingredients)
  {
    var cart := CartRecipes(db.carts, user);
    var totals := CartTotals(db.recipeIngredients, cart);
    CartIngredientsExist(db.recipeIngredients, db.recipes, db.ingredients, cart, order);
    pdf := ShoppingCartToPdf(CartItems(order, totals), db.ingredients);
  }

  /** What the downloaded list holds: one row per ingredient used by a
      recipe in the user's cart, with the sum of the amounts of that
      ingredient over those recipes, and nothing else. */
  lemma DownloadRows(db: Store, user: UserId, order: seq<IngredientId>, i: int)
    requires db.Valid()
    requires forall j :: 0 <= j < |order| ==> order[j] in CartTotals(db.recipeIngredients, CartRecipes(db.carts, user))
    requires 0 <= i < |order|
    ensures var cart := CartRecipes(db.carts, user);
            var totals := CartTotals(db.recipeIngredients, cart);
            && Uses(db.recipeIngredients, cart, order[i])
            && CartItems(order, totals)[i] == CartItem(order[i], SumAmounts(db.recipeIngredients, cart, order[i]))
  {
  }
}
