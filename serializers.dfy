/** backend/api/serializers.py: the checks the serializers make on incoming
    data, the values their `get_*` methods compute, and the writes
    `FavoriteCartSerializer.validate`, `create` and `update` make. */
module Serializers {
  import opened Common
  import opened PyText
  import opened QueryParams
  import opened UserModels
  import opened RecipeModels
  import opened Database

  // ---- Base64ImageField.to_internal_value ----

  /** What a client sends for `image`: text, or a file uploaded as a
      multipart form part (named by its file name). */
  datatype ImageInput = ImageText(text: string) | ImageFile(fileName: string)

  /** What is handed on to ImageField's own validation: the input as it
      came, or a file named `name` whose content is the base64 text
      `payload`. Decoding the payload and checking that it is an image are
      not part of this model. */
  datatype ImageUpload = Unchanged(input: ImageInput) | Decoded(name: string, payload: string)

  /** `format, imgstr = data.split(';base64,')` raises ValueError unless the
      split gives exactly two pieces. */
  datatype ImageError = UnpackError(pieces: nat)

  function ImageToInternal(data: ImageInput): (r: Result<ImageUpload, ImageError>)
    ensures !(data.ImageText? && StartsWith(data.text, "data:image")) ==> r == Ok(Unchanged(data))
  {
    if data.ImageText? && StartsWith(data.text, "data:image") then
      var parts := Split(data.text, ";base64,");
      if |parts| != 2 then Err(UnpackError(|parts|))
      else Ok(Decoded("temp." + LastPiece(parts[0], "/"), parts[1]))
    else Ok(Unchanged(data))
  }

  /** A decoded upload always comes from a data URI: the text is the
      header, the marker and the payload, the payload holds no second
      marker, and the file name is "temp." followed by the part of the
      header after its last '/'. */
  lemma ImageDecodedParts(data: ImageInput) returns (header: string)
    requires ImageToInternal(data).Ok? && ImageToInternal(data).value.Decoded?
    ensures data.ImageText? && StartsWith(data.text, "data:image")
    ensures data.text == header + ";base64," + ImageToInternal(data).value.payload
    ensures !Contains(ImageToInternal(data).value.payload, ";base64,")
    ensures ImageToInternal(data).value.name == "temp." + LastPiece(header, "/")
    ensures !Contains(LastPiece(header, "/"), "/")
  {
    var parts := Split(data.text, ";base64,");
    header := parts[0];
    JoinSplit(data.text, ";base64,");
    assert parts[1..] == [parts[1]];
    SplitPiecesFree(data.text, ";base64,");
    var pieces := Split(header, "/");
    SplitPiecesFree(header, "/");
    assert LastPiece(header, "/") == pieces[|pieces| - 1];
  }

  /** No character of `s` is `c`. */
  predicate Lacks(s: string, c: char) {
    forall i :: 0 <= i < |s| ==> s[i] != c
  }

  lemma LacksNoOccurrence(s: string, c: char)
    requires Lacks(s, c)
    ensures !Contains(s, [c])
  {
    forall i | 0 <= i < |s| ensures !OccursAt(s, [c], i) {
      assert s[i..i + 1][0] == s[i];
    }
  }

  /** A header without ';' is followed by the first marker, so splitting
      at the marker gives the header and the payload. */
  lemma SplitAtMarker(head: string, payload: string)
    requires Lacks(head, ';') && !Contains(payload, ";base64,")
    ensures Split(head + ";base64," + payload, ";base64,") == [head, payload]
  {
    var s := head + ";base64," + payload;
    assert OccursAt(s, ";base64,", |head|) by {
      assert s[|head|..|head| + 8] == ";base64,";
    }
    forall j | 0 <= j < |head| ensures !OccursAt(s, ";base64,", j) {
      assert s[j..j + 8][0] == s[j] == head[j];
    }
    FindFirst(s, ";base64,", |head|);
    assert s[..|head|] == head;
    assert s[|head| + 8..] == payload;
    assert Split(payload, ";base64,") == [payload];
  }

  /** "data:image/<ext>" splits at '/' into "data:image" and the extension. */
  lemma SplitMediaType(ext: string)
    requires Lacks(ext, '/')
    ensures Split("data:image/" + ext, "/") == ["data:image", ext]
  {
    var prefix := "data:image/";
    var head := prefix + ext;
    assert OccursAt(head, "/", 10) by {
      assert head[10..11] == "/";
    }
    forall j | 0 <= j < 10 ensures !OccursAt(head, "/", j) {
      assert head[j..j + 1][0] == head[j] == prefix[j];
    }
    FindFirst(head, "/", 10);
    assert head[..10] == "data:image";
    assert head[11..] == ext;
    LacksNoOccurrence(ext, '/');
    assert Split(ext, "/") == [ext];
  }

  /** A data URI "data:image/<ext>;base64,<payload>" becomes the file
      "temp.<ext>" holding the payload, for an extension without '/' or ';'
      and a payload without a second marker. */
  lemma DataUriRoundTrip(ext: string, payload: string)
    requires Lacks(ext, '/') && Lacks(ext, ';')
    requires !Contains(payload, ";base64,")
    ensures ImageToInternal(ImageText("data:image/" + ext + ";base64," + payload))
            == Ok(Decoded("temp." + ext, payload))
  {
    var prefix := "data:image/";
    var head := prefix + ext;
    assert Lacks(head, ';') by {
      forall j | 0 <= j < |head| ensures head[j] != ';' {
        if j < 11 { assert head[j] == prefix[j]; } else { assert head[j] == ext[j - 11]; }
      }
    }
    var s := head + ";base64," + payload;
    assert s[..10] == "data:image";
    SplitAtMarker(head, payload);
    SplitMediaType(ext);
  }

  // ---- get_is_subscribed ----

  /** `CustomUserSerializer.get_is_subscribed`: whether the user behind
      the request follows `author`; false without a request or for an
      anonymous visitor. */
  function IsSubscribed(request: Option<Visitor>, author: UserId, subscriptions: seq<Subscription>): (r: bool)
    ensures r <==> exists u :: request == Some(Authenticated(u)) && Subscription(u, author) in subscriptions
  {
    match request
    case Some(Authenticated(u)) => Subscription(u, author) in subscriptions
    case _ => false
  }

  /** `SubscriptionSerializer.get_is_subscribed` as written; None when it
      raises. It dereferences the request before testing whether there is
      one (AttributeError without a request), and it reads `obj.followers`,
      the rows in which `obj` is the follower, instead of the rows in which
      `obj` is followed. */
  function ListedIsSubscribed(request: Option<Visitor>, author: UserId,
                              subscriptions: seq<Subscription>): Option<bool>
  {
    match request
    case None => None
    case Some(Anonymous) => Some(false)
    case Some(Authenticated(u)) =>
      Some(exists i :: 0 <= i < |subscriptions| &&
             subscriptions[i].user == author && subscriptions[i].user == u)
  }

  /** The listing reports true only to a user looking at themself, and
      only when they follow someone. */
  lemma ListedIsSubscribedOnlyForSelf(request: Option<Visitor>, author: UserId,
                                      subscriptions: seq<Subscription>)
    requires ListedIsSubscribed(request, author, subscriptions) == Some(true)
    ensures request == Some(Authenticated(author))
    ensures exists i :: 0 <= i < |subscriptions| && subscriptions[i].user == author
  {
  }

  /** The discrepancy: every author the `subscriptions` listing shows, that
      is every author the user follows, is shown as not followed, while the
      user serializer says followed. */
  lemma ListedIsSubscribedMissesFollowedAuthor(user: UserId, author: UserId,
                                               subscriptions: seq<Subscription>)
    requires user != author && Subscription(user, author) in subscriptions
    ensures IsSubscribed(Some(Authenticated(user)), author, subscriptions)
    ensures ListedIsSubscribed(Some(Authenticated(user)), author, subscriptions) == Some(false)
  {
  }

  // ---- LimitRecipeSerializer and get_recipes ----

  /** The fields LimitRecipeSerializer shows. */
  datatype ShortRecipe = ShortRecipe(id: RecipeId, name: string, image: string, cookingTime: int)

  function Short(r: Recipe): ShortRecipe {
    ShortRecipe(r.id, r.name, r.image, r.cookingTime)
  }

  function Shorts(rs: seq<Recipe>): (r: seq<ShortRecipe>)
    ensures |r| == |rs| && forall i :: 0 <= i < |rs| ==> r[i] == Short(rs[i])
  {
    seq(|rs|, i requires 0 <= i < |rs| => Short(rs[i]))
  }

  /** The recipes of `author`, from a listing in default order. */
  function AuthoredBy(recipes: seq<Recipe>, author: UserId): seq<Recipe> {
    Filter(recipes, (x: Recipe) => x.author == author)
  }

  /** `SubscriptionSerializer.get_recipes`: the author's recipes, newest
      first, cut to `recipes_limit` when the parameter is present. A limit
      `int()` cannot read, or a negative one (which a queryset slice
      refuses), raises. */
  function AuthorRecipes(recipes: seq<Recipe>, author: UserId, params: Params): (r: Result<seq<ShortRecipe>, ServerError>)
    ensures Get(params, "recipes_limit").None? ==> r == Ok(Shorts(AuthoredBy(recipes, author)))
    ensures Get(params, "recipes_limit").Some? ==>
              (r.Ok? <==> var n := PyInt(Get(params, "recipes_limit").value); n.Some? && n.value >= 0)
    ensures r.Ok? ==> exists k :: 0 <= k <= |AuthoredBy(recipes, author)| &&
                                  r.value == Shorts(AuthoredBy(recipes, author)[..k])
    ensures r.Ok? && Get(params, "recipes_limit").Some? ==>
              |r.value| == Min(PyInt(Get(params, "recipes_limit").value).value, |AuthoredBy(recipes, author)|)
  {
    var mine := AuthoredBy(recipes, author);
    assert mine == mine[..|mine|];
    // `'recipes_limit' in query_params` holds exactly when `get` finds a value
    match Get(params, "recipes_limit")
    case None => Ok(Shorts(mine))
    case Some(text) =>
      match PyInt(text)
      case None => Err(ServerError)
      case Some(n) => if n < 0 then Err(ServerError) else Ok(Shorts(mine[..Min(n, |mine|)]))
  }

  /** Whether `get_recipes` raises for these query parameters: the
      `recipes_limit` is present and `int()` refuses it or it is negative.
      SubscribeSerializer's representation of a new subscription goes
      through `get_recipes`, so this decides whether that response fails. */
  predicate RecipesLimitFails(params: Params) {
    Get(params, "recipes_limit").Some? &&
    var n := PyInt(Get(params, "recipes_limit").value); n.None? || n.value < 0
  }

  /** The failure depends on the query parameters alone, whichever author
      and recipes are shown. */
  lemma AuthorRecipesFailsIff(recipes: seq<Recipe>, author: UserId, params: Params)
    ensures AuthorRecipes(recipes, author, params).Err? <==> RecipesLimitFails(params)
  {
  }

  // ---- FavoriteCartSerializer.validate ----

  datatype MarkError = NoSuchRecipe | AlreadyMarked

  /** The result of `FavoriteCartSerializer.validate` and the rows of the
      chosen table afterwards, given the recipes and that table's rows. */
  function AddMarkOutcome(recipes: map<RecipeId, Recipe>, marks: seq<Mark>, user: UserId,
                          recipe: RecipeId): (r: (Result<ShortRecipe, MarkError>, seq<Mark>))
    ensures r.0.Ok? <==> recipe in recipes && Mark(user, recipe) !in marks
    ensures recipe !in recipes ==> r.0 == Err(NoSuchRecipe)
    ensures r.0.Ok? ==> r.0.value == Short(recipes[recipe]) && r.1 == marks + [Mark(user, recipe)]
    ensures r.0.Err? ==> r.1 == marks
  {
    if recipe !in recipes then (Err(NoSuchRecipe), marks)
    else if Mark(user, recipe) in marks then (Err(AlreadyMarked), marks)
    else (Ok(Short(recipes[recipe])), marks + [Mark(user, recipe)])
  }

  /** Adding keeps the table free of duplicate rows and its foreign keys
      valid. */
  lemma AddMarkKeepsTableValid(recipes: map<RecipeId, Recipe>, users: map<UserId, User>,
                               marks: seq<Mark>, user: UserId, recipe: RecipeId)
    requires MarksUnique(marks) && MarksRefer(marks, users, recipes) && user in users
    ensures MarksUnique(AddMarkOutcome(recipes, marks, user, recipe).1)
    ensures MarksRefer(AddMarkOutcome(recipes, marks, user, recipe).1, users, recipes)
  {
    if AddMarkOutcome(recipes, marks, user, recipe).0.Ok? {
      DistinctSnoc(marks, Mark(user, recipe));
    }
  }

  /** `FavoriteCartSerializer.validate`: checks that the recipe exists and is
      not yet in the table `table`, then inserts the row. */
  method FavoriteCartValidate(db: Store, table: MarkTable, user: UserId, recipe: RecipeId)
    returns (r: Result<ShortRecipe, MarkError>)
    requires db.Valid() && user in db.users
    modifies db`favorites, db`carts
    ensures (r, db.Marks(table)) == AddMarkOutcome(old(db.recipes), old(db.Marks(table)), user, recipe)
    ensures table == Favorites ==> db.carts == old(db.carts)
    ensures table == ShoppingCarts ==> db.favorites == old(db.favorites)
    ensures db.Valid()
  {
    if recipe !in db.recipes {
      return Err(NoSuchRecipe);
    }
    var row := Mark(user, recipe);
    if row in db.Marks(table) {
      return Err(AlreadyMarked);
    }
    AddMarkKeepsTableValid(db.recipes, db.users, db.Marks(table), user, recipe);
    if table == Favorites {
      db.favorites := db.favorites + [row];
    } else {
      db.carts := db.carts + [row];
    }
    r := Ok(Short(db.recipes[recipe]));
  }

  // ---- SubscribeSerializer.validate ----

  datatype SubscribeError = SelfSubscription | AlreadySubscribed

  /** `SubscribeSerializer.validate`: no following oneself, no following
      twice. */
  function ValidateSubscription(subscriptions: seq<Subscription>, user: UserId, author: UserId): (r: Result<Subscription, SubscribeError>)
    ensures r.Ok? <==> user != author && Subscription(user, author) !in subscriptions
    ensures r.Ok? ==> r.value == Subscription(user, author)
    ensures user == author ==> r == Err(SelfSubscription)
  {
    if user == author then Err(SelfSubscription)
    else if Subscription(user, author) in subscriptions then Err(AlreadySubscribed)
    else Ok(Subscription(user, author))
  }

  /** No row has a user following themself: the database allows such rows,
      the API never writes one. */
  predicate NoSelfSubscription(subscriptions: seq<Subscription>) {
    forall i :: 0 <= i < |subscriptions| ==> subscriptions[i].user != subscriptions[i].author
  }

  /** Saving a validated subscription keeps the table free of duplicates
      and of self-subscriptions. */
  lemma ValidatedSubscriptionKeepsInvariants(subscriptions: seq<Subscription>, user: UserId, author: UserId)
    requires SubscriptionsUnique(subscriptions) && NoSelfSubscription(subscriptions)
    requires ValidateSubscription(subscriptions, user, author).Ok?
    ensures SubscriptionsUnique(subscriptions + [ValidateSubscription(subscriptions, user, author).value])
    ensures NoSelfSubscription(subscriptions + [ValidateSubscription(subscriptions, user, author).value])
  {
    DistinctSnoc(subscriptions, Subscription(user, author));
  }

  // ---- validate_tags, validate_ingredients ----

  datatype ListError = EmptyList | Duplicates

  /** `validate_tags`: the list must be non-empty and `len(data)` must not
      exceed `len(set(data))`. */
  function ValidateTags(tags: seq<TagId>): (r: Result<seq<TagId>, ListError>)
    ensures r.Ok? <==> tags != [] && Distinct(tags)
    ensures r.Ok? ==> r.value == tags
    ensures tags == [] ==> r == Err(EmptyList)
    ensures tags != [] && !Distinct(tags) ==> r == Err(Duplicates)
  {
    DistinctIffSetSize(tags);
    if |tags| == 0 then Err(EmptyList)
    else if |tags| > |set t | t in tags| then Err(Duplicates)
    else Ok(tags)
  }

  /** `validate_ingredients`: the list must be non-empty and no ingredient
      may occur twice, whatever the amounts. */
  function ValidateIngredients(items: seq<IngredientAmount>): (r: Result<seq<IngredientAmount>, ListError>)
    ensures r.Ok? <==> items != [] && Distinct(IngredientIds(items))
    ensures r.Ok? ==> r.value == items
    ensures items == [] ==> r == Err(EmptyList)
  {
    var ids := IngredientIds(items);
    DistinctIffSetSize(ids);
    if |items| == 0 then Err(EmptyList)
    else if |ids| > |set id | id in ids| then Err(Duplicates)
    else Ok(items)
  }

  /** Two entries for the same ingredient are refused even when their
      amounts differ. */
  lemma RepeatedIngredientRejected(items: seq<IngredientAmount>, i: int, j: int)
    requires 0 <= i < j < |items| && items[i].id == items[j].id
    ensures ValidateIngredients(items) == Err(Duplicates)
  {
    assert IngredientIds(items)[i] == IngredientIds(items)[j];
  }

  // ---- the amount and cooking_time validators ----

  /** The validators on `CreateUpdateRecipeIngredientsSerializer.amount`.
      The lower bound is RECIPE_MIN_VOL_VALIDATOR, the cooking-time minimum,
      although the error message names the ingredient minimum. */
  predicate AmountAccepted(settings: Settings, amount: int) {
    settings.recipeMinVol <= amount <= settings.recipeIngMaxVol
  }

  /** The validators on `RecipeCreateUpdateSerializer.cooking_time`. */
  predicate CookingTimeAccepted(settings: Settings, t: int) {
    settings.recipeMinVol <= t <= settings.recipeMaxVol
  }

  /** The serializer and the model agree on cooking times. */
  lemma CookingTimeAgreesWithModel(settings: Settings, t: int)
    ensures CookingTimeAccepted(settings, t) <==> CookingTimeInRange(settings, t)
  {
  }

  /** The serializer and the model disagree on amounts whenever the two
      minimums differ: an amount between them passes one check and fails
      the other. */
  lemma AmountMinimumDiffersFromModel(settings: Settings, amount: int)
    requires amount <= settings.recipeIngMaxVol
    requires settings.recipeMinVol <= amount < settings.recipeIngMinVol
             || settings.recipeIngMinVol <= amount < settings.recipeMinVol
    ensures AmountAccepted(settings, amount) != ModelAmountInRange(settings, amount)
  {
  }

  // ---- RecipeCreateUpdateSerializer: validation of the request body ----

  datatype RecipeField = NameField | TextField | ImageField | CookingTimeField | TagsField | IngredientsField

  /** The fields of a create or update request; None for a field the body
      leaves out. The image is what Base64ImageField produced. */
  datatype RecipeData = RecipeData(
    name: Option<string>,
    text: Option<string>,
    image: Option<string>,
    cookingTime: Option<int>,
    tags: Option<seq<TagId>>,
    ingredients: Option<seq<IngredientAmount>>
  )

  /** The `tags` field: every id names an existing tag (PrimaryKeyRelatedField),
      then `validate_tags`. */
  predicate TagsFieldAccepted(tagIds: set<TagId>, tags: seq<TagId>) {
    (forall i :: 0 <= i < |tags| ==> tags[i] in tagIds) && ValidateTags(tags).Ok?
  }

  /** The `ingredients` field: every entry names an existing ingredient and
      has an accepted amount, then `validate_ingredients`. */
  predicate IngredientsFieldAccepted(settings: Settings, ingredientIds: set<IngredientId>,
                                     items: seq<IngredientAmount>)
  {
    && (forall i :: 0 <= i < |items| ==> items[i].id in ingredientIds && AmountAccepted(settings, items[i].amount))
    && ValidateIngredients(items).Ok?
  }

  /** Whether field `f` carries an error: a missing field is an error
      unless the update is partial. */
  predicate FieldRejected(settings: Settings, tagIds: set<TagId>, ingredientIds: set<IngredientId>,
                          data: RecipeData, partial: bool, f: RecipeField)
  {
    match f
    case NameField => data.name.None? && !partial
    case TextField => data.text.None? && !partial
    case ImageField => data.image.None? && !partial
    case CookingTimeField =>
      if data.cookingTime.None? then !partial else !CookingTimeAccepted(settings, data.cookingTime.value)
    case TagsField =>
      if data.tags.None? then !partial else !TagsFieldAccepted(tagIds, data.tags.value)
    case IngredientsField =>
      if data.ingredients.None? then !partial
      else !IngredientsFieldAccepted(settings, ingredientIds, data.ingredients.value)
  }

  const AllFields: set<RecipeField> :=
    {NameField, TextField, ImageField, CookingTimeField, TagsField, IngredientsField}

  /** `is_valid()`: every field is checked and the errors are collected per
      field; the data passes when no field has an error. */
  function ValidateRecipeData(settings: Settings, tagIds: set<TagId>, ingredientIds: set<IngredientId>,
                              data: RecipeData, partial: bool): (r: Result<RecipeData, set<RecipeField>>)
    ensures r.Ok? ==> r.value == data
    ensures r.Err? ==> r.error != {}
    ensures r.Err? ==> forall f :: f in r.error <==> FieldRejected(settings, tagIds, ingredientIds, data, partial, f)
  {
    var errors := set f | f in AllFields && FieldRejected(settings, tagIds, ingredientIds, data, partial, f);
    if errors == {} then Ok(data) else Err(errors)
  }

  /** What passing validation guarantees: every present field is within its
      rules, and without `partial` every field is present. */
  lemma ValidatedRecipeData(settings: Settings, tagIds: set<TagId>, ingredientIds: set<IngredientId>,
                            data: RecipeData, partial: bool)
    requires ValidateRecipeData(settings, tagIds, ingredientIds, data, partial).Ok?
    ensures !partial ==> data.name.Some? && data.text.Some? && data.image.Some?
                         && data.cookingTime.Some? && data.tags.Some? && data.ingredients.Some?
    ensures data.cookingTime.Some? ==> CookingTimeInRange(settings, data.cookingTime.value)
    ensures data.tags.Some? ==>
              var tags := data.tags.value;
              tags != [] && Distinct(tags) && forall i :: 0 <= i < |tags| ==> tags[i] in tagIds
    ensures data.ingredients.Some? ==>
              var items := data.ingredients.value;
              && items != [] && Distinct(IngredientIds(items))
              && forall i :: 0 <= i < |items| ==>
                   items[i].id in ingredientIds && AmountAccepted(settings, items[i].amount)
  {
    forall f | f in AllFields ensures !FieldRejected(settings, tagIds, ingredientIds, data, partial, f) {
      var errors := set g | g in AllFields && FieldRejected(settings, tagIds, ingredientIds, data, partial, g);
      assert f !in errors;
    }
    assert !FieldRejected(settings, tagIds, ingredientIds, data, partial, CookingTimeField);
    assert !FieldRejected(settings, tagIds, ingredientIds, data, partial, TagsField);
    assert !FieldRejected(settings, tagIds, ingredientIds, data, partial, IngredientsField);
  }

  // ---- RecipeCreateUpdateSerializer.create ----

  /** The row `Recipe.objects.create(author=author, **validated_data)`
      inserts; `id` is the key the database assigns and `pubDate` the time
      of the call (`auto_now_add`). */
  function NewRecipe(id: RecipeId, author: UserId, data: RecipeData, pubDate: int): Recipe
    requires data.name.Some? && data.text.Some? && data.image.Some? && data.cookingTime.Some?
  {
    Recipe(id, author, data.name.value, data.text.value, data.cookingTime.value, data.image.value, pubDate)
  }

  /** `create`: inserts the recipe with the requesting user as author, sets
      its tags, and inserts one RecipeIngredient row per entry. */
  method CreateRecipe(db: Store, settings: Settings, author: UserId, data: RecipeData,
                      id: RecipeId, pubDate: int) returns (recipe: RecipeId)
    requires db.Valid() && author in db.users && id !in db.recipes
    requires ValidateRecipeData(settings, db.tags.Keys, db.ingredients.Keys, data, false).Ok?
    modifies db`recipes, db`recipeTags, db`recipeIngredients
    ensures recipe == id
    ensures data.name.Some? && data.text.Some? && data.image.Some? && data.cookingTime.Some?
    ensures data.tags.Some? && data.ingredients.Some?
    ensures db.recipes == old(db.recipes)[id := NewRecipe(id, author, data, pubDate)]
    ensures db.recipeTags == SetTags(old(db.recipeTags), id, data.tags.value)
    ensures db.recipeIngredients == old(db.recipeIngredients) + IngredientRows(id, data.ingredients.value)
    ensures db.Valid()
  {
    ValidatedRecipeData(settings, db.tags.Keys, db.ingredients.Keys, data, false);
    var tags := data.tags.value;
    var items := data.ingredients.value;
    var row := NewRecipe(id, author, data, pubDate);
    // no row can mention a recipe that does not exist yet
    SetTagsOnNewRecipe(db.recipeTags, id, tags);
    db.recipes := db.recipes[id := row];
    db.recipeTags := SetTags(db.recipeTags, id, tags);
    db.recipeIngredients := db.recipeIngredients + IngredientRows(id, items);
    recipe := id;
  }

  /** What a created recipe reads back as: the requested tags and exactly
      the requested ingredient entries with their amounts. */
  lemma CreatedRecipeContents(rowsT: seq<RecipeTag>, rowsI: seq<RecipeIngredient>, id: RecipeId,
                              tags: seq<TagId>, items: seq<IngredientAmount>, other: RecipeId)
    requires forall i :: 0 <= i < |rowsI| ==> rowsI[i].recipe != id
    requires other != id
    ensures TagsOf(SetTags(rowsT, id, tags), id) == set t | t in tags
    ensures IngredientsOf(rowsI + IngredientRows(id, items), id) == items
    ensures IngredientsOf(rowsI + IngredientRows(id, items), other) == IngredientsOf(rowsI, other)
  {
    SetTagsEffect(rowsT, id, tags, other);
    IngredientsAfterCreate(rowsI, id, items, other);
  }

  // ---- RecipeCreateUpdateSerializer.update ----

  datatype UpdateError = TagsMissing | IngredientsMissing

  /** The recipe after `super().update`: each field the request carries
      replaces the stored one. */
  function Patch(recipe: Recipe, data: RecipeData): Recipe {
    recipe.(
      name := if data.name.Some? then data.name.value else recipe.name,
      text := if data.text.Some? then data.text.value else recipe.text,
      image := if data.image.Some? then data.image.value else recipe.image,
      cookingTime := if data.cookingTime.Some? then data.cookingTime.value else recipe.cookingTime)
  }

  /** `update`, as written: refuses a request without `tags` or without
      `ingredients`; otherwise replaces the ingredient rows entry by entry
      and saves the other fields. Because the test before `tags.set` is
      `tags is None`, which a validated list never is, the tag rows are
      never touched. */
  method UpdateRecipe(db: Store, settings: Settings, id: RecipeId, data: RecipeData, partial: bool)
    returns (r: Result<(), UpdateError>)
    requires db.Valid() && id in db.recipes
    requires ValidateRecipeData(settings, db.tags.Keys, db.ingredients.Keys, data, partial).Ok?
    modifies db`recipes, db`recipeIngredients
    ensures data.tags.None? ==> r == Err(TagsMissing)
    ensures data.tags.Some? && data.ingredients.None? ==> r == Err(IngredientsMissing)
    ensures r.Err? ==> db.recipes == old(db.recipes) && db.recipeIngredients == old(db.recipeIngredients)
    ensures data.tags.Some? && data.ingredients.Some? ==>
              && r.Ok?
              && db.recipes == old(db.recipes)[id := Patch(old(db.recipes)[id], data)]
              && db.recipeIngredients == ReplaceIngredients(old(db.recipeIngredients), id, data.ingredients.value)
    ensures db.recipeTags == old(db.recipeTags)
    ensures db.Valid()
  {
    ValidatedRecipeData(settings, db.tags.Keys, db.ingredients.Keys, data, partial);
    if data.tags.None? {
      return Err(TagsMissing);
    }
    // `tags` is popped here; the `tags is None` branch that would call
    // `instance.tags.set` cannot run for a list
    if data.ingredients.None? {
      return Err(IngredientsMissing);
    }
    var items := data.ingredients.value;
    var cleared := ClearIngredients(db.recipeIngredients, id);
    db.recipeIngredients := cleared;
    var i := 0;
    while i < |items|
      invariant 0 <= i <= |items|
      invariant db.recipeIngredients == cleared + IngredientRows(id, items[..i])
      invariant db.recipes == old(db.recipes)
    {
      UpdateOrCreateStep(cleared, id, items, i);
      var step := UpdateOrCreate(db.recipeIngredients, id, items[i].id, items[i].amount);
      db.recipeIngredients := step.value;
      i := i + 1;
    }
    assert items[..i] == items;
    ReplaceIngredientsRefer(old(db.recipeIngredients), db.recipes, db.ingredients, id, items);
    db.recipes := db.recipes[id := Patch(db.recipes[id], data)];
    r := Ok(());
  }

  /** What the update was evidently meant to do with the tags: replace them
      by the requested ones, as `create` does. */
  function IntendedTagRowsAfterUpdate(rows: seq<RecipeTag>, id: RecipeId, tags: seq<TagId>): seq<RecipeTag> {
    SetTags(rows, id, tags)
  }

  /** With the intended behaviour the recipe ends with exactly the requested
      tags, and no other recipe's tags change. */
  lemma IntendedUpdateSetsTags(rows: seq<RecipeTag>, id: RecipeId, tags: seq<TagId>, other: RecipeId)
    requires other != id
    ensures TagsOf(IntendedTagRowsAfterUpdate(rows, id, tags), id) == set t | t in tags
    ensures TagsOf(IntendedTagRowsAfterUpdate(rows, id, tags), other) == TagsOf(rows, other)
  {
    SetTagsEffect(rows, id, tags, other);
  }

  /** The discrepancy: whenever the requested tags differ from the stored
      ones, the update as written (which leaves the rows alone) and the
      intended update leave the recipe with different tags. For example a
      recipe tagged {10} updated with tags [20] stays tagged {10}. */
  lemma UpdateKeepsStaleTags(rows: seq<RecipeTag>, id: RecipeId, tags: seq<TagId>)
    requires TagsOf(rows, id) != set t | t in tags
    ensures TagsOf(rows, id) != TagsOf(IntendedTagRowsAfterUpdate(rows, id, tags), id)
  {
    IntendedUpdateSetsTags(rows, id, tags, id + 1);
  }
}
