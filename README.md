# Foodgram backend core, modelled in Dafny

Foodgram is a recipe-sharing service. Users publish recipes made of
ingredients with amounts and carrying tags. They follow other authors, keep
favourites and fill a shopping cart. The cart can be downloaded as a PDF
shopping list that adds up the ingredient amounts. This project models the
backend's core, the part that decides what the service stores and answers:

- `common.dfy` (`Common`): Option/Result, the settings constants as a
  record with uninterpreted values, and sequence helpers (`Filter`,
  `Without`, distinctness).
- `pytext.dfy` (`PyText`): the Python string behaviour the core depends
  on: `str.strip`, `int()` on text (sign, underscores between digits,
  surrounding whitespace, which for `int()` excludes the information
  separators U+001C to U+001F that `str.strip` drops), `str.split` and `str(n)` for integers.
- `user_models.dfy` (`UserModels`): users, the requesting visitor
  (anonymous or signed in), subscriptions, the username rules and the
  ordering by username.
- `recipe_models.dfy` (`RecipeModels`): tags, ingredients, recipes and
  their link rows, the tag colour and slug validators, the unique
  constraints, the bounds and the newest-first ordering.
- `database.dfy` (`Database`): the tables as one `Store` object whose
  `Valid()` holds every unique constraint and foreign key. It also holds
  the ORM primitives the serializers use: `tags.set`, `ingredients.clear`
  and `update_or_create`.
- `mixins.dfy` (`Mixins`): `validate_pk`.
- `query_params.dfy` (`QueryParams`): the query string as Django's
  QueryDict presents it (`get`, `getlist`), and the values django-filter's
  CharFilter and BooleanFilter derive from it.
- `serializers.dfy` (`Serializers`): the Base64 image field, the
  `is_subscribed` fields, `get_recipes`, the favourite/cart validation, the
  subscription validation, the tag and ingredient list checks, the bounds,
  and recipe `create` and `update`.
- `views.dfy` (`Views`): `subscribe`, `favorite`, `shopping_cart` with
  their add/delete helpers, and the shopping-cart aggregation behind
  `download_shopping_cart`.
- `pdf.dfy` (`Pdf`): `shopping_cart_to_pdf`, as the sequence of calls it
  makes on a canvas.
- `filters.dfy` (`Filters`): the user `limit` filter, the ingredient name
  filter and the recipe filters (tags, author, favourites, cart).

State-changing code is imperative: the `Store` class's fields are the
tables, and the PDF canvas is a class recording its calls. Each such
method is proved equal to an outcome function of the old state, and the
lemmas are about those functions. Validation, filtering and text handling
are functions.

Where the code and its documentation part ways, the model follows the
code:

- The `is_favorited=false` and `is_in_shopping_cart=false` filters list the
  same recipes as `true`. For an anonymous visitor, `false` lists the
  recipes that nobody has marked.
- An ingredient amount is checked against the cooking-time minimum
  (`RECIPE_MIN_VOL_VALIDATOR`), not against the ingredient minimum.

## Model

| member | source | states |
|---|---|---|
| Common.Filter | backend/api/filters.py:72 | a selection keeps exactly the elements that pass the test, each drawn from the input |
| Common.FilterIsSubsequence | backend/api/filters.py:72 | a selection keeps the input's order |
| Common.FilterKeepsDistinct | backend/api/filters.py:72 | selecting from a listing without repeats gives one without repeats (`distinct()`) |
| Common.FilterFilter | backend/api/filters.py:69-95 | two selections one after the other are one selection by the conjunction of the tests |
| Common.Without | backend/api/views.py:190-193 | deleting a row removes it entirely and keeps every other row |
| Common.WithoutKeepsDistinct | backend/api/views.py:190-193 | deleting a row from a table without duplicates leaves a table without duplicates |
| Common.WithoutAppended | backend/api/views.py:115-118 | deleting the row that was just appended restores the table |
| Common.WithoutOneFewer | backend/api/views.py:190-193 | deleting a present row from a duplicate-free table removes exactly one row |
| Common.DistinctIffSetSize | backend/api/serializers.py:358 | `len(data) > len(set(data))` is false exactly when the list has no repeats |
| PyText.TrimLeft | backend/api/mixins.py:6 | left strip drops exactly a whitespace prefix |
| PyText.TrimRight | backend/api/mixins.py:6 | right strip drops exactly a whitespace suffix |
| PyText.Digits | backend/api/utils.py:27 | the decimal form of a natural number is a non-empty digit string |
| PyText.PyIntReadsDecimal | backend/api/mixins.py:6 | `int(str(n))`, with any whitespace `int()` skips around it, is `n` |
| PyText.SeparatorStrippedButRefused | backend/api/mixins.py:6 | U+001C in front of a number is dropped by `str.strip`, yet `int()` refuses the text |
| PyText.Find | backend/api/serializers.py:31 | the first occurrence, or none exactly when the separator does not occur |
| PyText.Split | backend/api/serializers.py:31-32 | `str.split` always gives at least one piece |
| PyText.JoinSplit | backend/api/serializers.py:31-32 | joining the pieces of a split with the separator gives the text back |
| PyText.SplitPiecesFree | backend/api/serializers.py:31-32 | no piece of a split contains the separator |
| Mixins.ValidatePkAcceptsIntegers | backend/api/mixins.py:4-7 | every integer written in decimal, with a sign if negative and any whitespace `int()` skips around it, passes (`"12"`, `"-3"`, `" 7 "`) |
| Mixins.ValidatePkNeedsDigit | backend/api/mixins.py:8-9 | text without a digit fails (`""`, `"abc"`) |
| Mixins.ValidatePkAcceptsDigitGroups | backend/api/mixins.py:4-7 | digits with single underscores between them pass (`"1_000"`) |
| Mixins.ValidatePkAcceptsSignedDigitGroups | backend/api/mixins.py:4-7 | a `+` or `-` before such digits passes |
| Mixins.ValidatePkRejectsForeignChar | backend/api/mixins.py:8-9 | one character other than a digit, `_`, a sign or whitespace `int()` skips makes the text fail, an information separator (U+001C to U+001F) included |
| Mixins.ValidatePkRejectsDoubleUnderscore | backend/api/mixins.py:8-9 | two underscores in a row make the text fail |
| QueryParams.GetList | backend/api/filters.py:71 | `getlist` returns at most one value per pair of the query string |
| QueryParams.GetListIsFilter | backend/api/filters.py:71 | `getlist` is the values of the key's pairs in the order the query string gives them, the same selection `Common.Filter` makes |
| QueryParams.GetListContents | backend/api/filters.py:71 | a value is in `getlist(key)` exactly when some pair of the query string gives that value for that key |
| QueryParams.GetIsLastOfList | backend/api/filters.py:19-20 | `get` returns the last value of `getlist`; it returns nothing exactly when the key is absent (`'limit' in query_params`) |
| QueryParams.CharFilterValue | backend/api/filters.py:40-46 | a CharFilter runs only with a non-blank value for a key that is present |
| QueryParams.BooleanFilterValue | backend/api/filters.py:47-52 | a BooleanFilter runs only for a key that is present |
| QueryParams.BooleanFilterReadsWords | backend/api/filters.py:47-52 | `True` and `1` read as true, `FALSE` and `0` as false, an unknown word or an absent key skips the filter |
| UserModels.UsernamePatternIsMatcher | backend/users/models.py:27-31 | the username test holds exactly when the regex `^[\w.@+-]+\Z`, read as a matcher, consumes one or more characters of its class and then reaches the end |
| UserModels.StringLeTotal | backend/users/models.py:48-53 | any two usernames are ordered one way or the other |
| UserModels.StringLeTransitive | backend/users/models.py:48-53 | the username order is transitive |
| RecipeModels.SearchColor | backend/recipes/models.py:31-41 | the regex search finds the first `#` followed by six upper-case hex digits, or reports that there is none |
| RecipeModels.ColorValidIff | backend/recipes/models.py:31-41 | a colour is valid exactly when it fits the length limit and contains `#` and six upper-case hex digits somewhere (unanchored search) |
| RecipeModels.ColorAcceptsSurroundingText | backend/recipes/models.py:31-41 | text before and after such a code, within the length limit, still passes |
| RecipeModels.ColorRejectsLowerCase | backend/recipes/models.py:31-41 | `#000fff` is refused |
| RecipeModels.SlugValidIff | backend/recipes/models.py:42-52 | a slug is valid exactly when it fits the length limit, is non-empty and uses only ASCII letters, digits, `-` and `_` |
| RecipeModels.SlugPatternAloneAllowsNewline | backend/recipes/models.py:45-50 | the pattern `^...+$` alone lets a trailing newline through, which the slug field's own validator refuses |
| RecipeModels.NewestFirstCons | backend/recipes/models.py:140-145 | a recipe no older than any in a newest-first listing can go in front |
| RecipeModels.FilterKeepsNewestFirst | backend/recipes/models.py:140-145 | any selection from a newest-first listing is newest first |
| Database.MarkRemoveKeepsTableValid | backend/recipes/models.py:224-235 | deleting a favourite or cart row keeps `unique_favorite_recipe`/`unique_shopping_list_recipe` and the foreign keys |
| Database.SubscriptionAddKeepsTableValid | backend/users/models.py:75-86 | adding a new subscription between existing users keeps `unique_subscription` and the foreign keys |
| Database.SubscriptionRemoveKeepsTableValid | backend/users/models.py:75-86 | deleting a subscription keeps `unique_subscription` and the foreign keys |
| Database.TagRows | backend/api/serializers.py:391 | one RecipeTags row per requested tag, for the recipe and that tag |
| Database.TagsAfterCreate | backend/api/serializers.py:391 | for a new recipe the rows give it exactly the requested tags and leave other recipes' tags alone |
| Database.SetTagsEffect | backend/api/serializers.py:391 | after `tags.set`, the recipe has exactly the requested tags and every other recipe keeps its own |
| Database.SetTagsOnNewRecipe | backend/api/serializers.py:391 | on a recipe without tag rows, `tags.set` only appends |
| Database.IngredientRows | backend/api/serializers.py:392-399 | one RecipeIngredient row per entry, carrying that entry's ingredient and amount |
| Database.IngredientRowsReadBack | backend/api/serializers.py:392-399 | the rows made for a recipe read back as exactly its entries, and give nothing to another recipe |
| Database.IngredientsAfterCreate | backend/api/serializers.py:392-399 | `bulk_create` gives a new recipe exactly its entries and leaves other recipes' entries alone |
| Database.ClearIngredients | backend/api/serializers.py:417 | `ingredients.clear()` leaves no row for the recipe |
| Database.IngredientsOfCleared | backend/api/serializers.py:417 | clearing one recipe leaves other recipes' entries alone |
| Database.FindRow | backend/api/serializers.py:424-428 | the lookup of `update_or_create` finds the (recipe, ingredient) row, or reports exactly that there is none |
| Database.MatchCount | backend/api/serializers.py:424-428 | the number of rows for the (recipe, ingredient) pair is zero exactly when the lookup finds none |
| Database.UpdateOrCreate | backend/api/serializers.py:424-428 | `update_or_create` appends a row when none matches; with one match it sets that row's amount and leaves every other row as it was; with two or more it raises `MultipleObjectsReturned` (a server error) |
| Database.UpdateOrCreateStep | backend/api/serializers.py:417-428 | after `clear()` and with distinct ids, each `update_or_create` of the loop succeeds and appends exactly that entry's row |
| Database.ReplaceIngredientsRefer | backend/api/serializers.py:417-428 | replacing a recipe's rows with existing ingredients keeps the foreign keys |
| Database.ReplaceIngredientsEffect | backend/api/serializers.py:417-428 | after the update the recipe's entries are exactly the requested ones, and other recipes' entries are unchanged |
| Serializers.ImageToInternal | backend/api/serializers.py:26-37 | anything other than text starting with `data:image` is passed on unchanged |
| Serializers.ImageDecodedParts | backend/api/serializers.py:26-37 | a decoded upload came from `data:image` text made of a header, `;base64,` and the payload; it is named `temp.` plus the header's text after its last `/` |
| Serializers.SplitAtMarker | backend/api/serializers.py:31 | a header without `;` and a payload without the marker split back into the two |
| Serializers.SplitMediaType | backend/api/serializers.py:32 | `data:image/<ext>` splits at `/` into `data:image` and the extension |
| Serializers.DataUriRoundTrip | backend/api/serializers.py:26-37 | `data:image/<ext>;base64,<payload>` becomes a file `temp.<ext>` holding the payload |
| Serializers.IsSubscribed | backend/api/serializers.py:52-62 | true exactly when a signed-in requester has a subscription to the author; false without a request or for an anonymous visitor |
| Serializers.ListedIsSubscribedOnlyForSelf | backend/api/serializers.py:136-141 | the subscriptions listing says "subscribed" only to a user looking at themself who follows someone |
| Serializers.ListedIsSubscribedMissesFollowedAuthor | backend/api/serializers.py:136-141 | for an author the user follows, the listing says "not subscribed" while the user serializer says "subscribed" |
| Serializers.Shorts | backend/api/serializers.py:86-88 | the short form keeps id, name, image and cooking time of each recipe, in order |
| Serializers.AuthorRecipes | backend/api/serializers.py:143-163 | without `recipes_limit`, all of the author's recipes newest first; with it, the first `min(limit, count)` of them; it fails exactly when `int()` refuses the limit or the limit is negative |
| Serializers.AuthorRecipesFailsIff | backend/api/serializers.py:150-153 | `get_recipes` raises exactly when `recipes_limit` is present and `int()` refuses it or it is negative |
| Serializers.AddMarkOutcome | backend/api/serializers.py:94-118 | success exactly when the recipe exists and the row is new; then exactly that row is added and the short recipe returned; a missing recipe is refused as such; a refusal writes nothing |
| Serializers.AddMarkKeepsTableValid | backend/recipes/models.py:257-268 | validating before inserting keeps the (user, recipe) constraint and the foreign keys |
| Serializers.FavoriteCartValidate | backend/api/serializers.py:94-118 | the result and the chosen table are those of the outcome above; the other table is untouched; the store stays valid |
| Serializers.ValidateSubscription | backend/api/serializers.py:180-193 | accepted exactly when user and author differ and the pair is new, returning that pair; following oneself is refused as such |
| Serializers.ValidatedSubscriptionKeepsInvariants | backend/api/serializers.py:180-193 | saving an accepted pair keeps the table free of duplicates and of self-subscriptions |
| Serializers.ValidateTags | backend/api/serializers.py:348-362 | accepted exactly when the list is non-empty and has no repeat, and returned unchanged; empty and repeated are told apart |
| Serializers.ValidateIngredients | backend/api/serializers.py:364-379 | accepted exactly when the list is non-empty and no two entries share an ingredient id, and returned unchanged |
| Serializers.RepeatedIngredientRejected | backend/api/serializers.py:374-378 | two entries with the same id are refused as duplicates, whatever their amounts |
| Serializers.CookingTimeAgreesWithModel | backend/api/serializers.py:333-346 | the serializer's cooking-time bounds are the model's |
| Serializers.AmountMinimumDiffersFromModel | backend/api/serializers.py:248-261 | where the two minimums differ, the serializer and the model disagree about an amount between them |
| Serializers.ValidateRecipeData | backend/api/serializers.py:319-379 | the errors are exactly the fields whose check fails, there is at least one on failure, and passing data is returned unchanged |
| Serializers.ValidatedRecipeData | backend/api/serializers.py:319-379 | passing data has every field on a full request, a cooking time in bounds, distinct existing tags, and existing, distinct ingredients with accepted amounts |
| Serializers.CreateRecipe | backend/api/serializers.py:381-400 | inserts the recipe with the requesting user as author and the given fields, sets its tags, appends one row per entry, and keeps the store valid |
| Serializers.CreatedRecipeContents | backend/api/serializers.py:381-400 | the new recipe has exactly the requested tags and entries, and no other recipe's entries change |
| Serializers.UpdateRecipe | backend/api/serializers.py:402-429 | refuses a request without `tags` or without `ingredients` and then writes nothing; otherwise the ingredient rows are replaced by the requested ones, the given fields are saved, the tag rows stay as they were, and the store stays valid |
| Serializers.IntendedUpdateSetsTags | backend/api/serializers.py:409-411 | replacing the tags leaves the recipe with exactly the requested ones and other recipes untouched |
| Serializers.UpdateKeepsStaleTags | backend/api/serializers.py:409-411 | whenever the requested tags differ from the stored ones, the update as written ends with different tags than the intended one |
| Views.SubscribeOutcome | backend/api/views.py:77-121 | 404 for an id `int()` refuses or no user has; for a POST the serializer accepts, the row is added and the answer is 500 exactly when rendering the author's recipes fails on `recipes_limit`, 201 otherwise; 204 exactly for a DELETE of an existing row, removing it; otherwise 400 and nothing changes |
| Views.Subscribe | backend/api/views.py:77-121 | the status and the subscriptions afterwards are those of the outcome above (the row stays saved when the response fails), and the store stays valid |
| Views.SubscribeKeepsInvariants | backend/api/views.py:77-121 | subscribing and unsubscribing keep the table free of duplicates and self-subscriptions, with both users existing |
| Views.SubscribeSetsStatus | backend/api/views.py:94-121 | after a 201, or a 500 from rendering the saved row, the user is subscribed to the author; after a 204 they are not |
| Views.SubscribeThenUnsubscribe | backend/api/views.py:94-121 | unsubscribing right after a subscription that saved its row (201, or 500 from rendering) answers 204 and restores the table |
| Views.AddStatus | backend/api/views.py:163-166 | 201 exactly on success, otherwise 400 |
| Views.AddRecipeToFavCart | backend/api/views.py:152-166 | the status and the chosen table follow the validation outcome; the other table is untouched |
| Views.DeleteMarkOutcome | backend/api/views.py:168-196 | 404 for a missing recipe; 204 exactly when the row exists, removing it; otherwise 400 and nothing changes |
| Views.DeleteRecipeFromFavCart | backend/api/views.py:168-196 | the status and the chosen table are those of the outcome above; the other table is untouched; the store stays valid |
| Views.DeleteMarkRemovesOnlyThatRow | backend/api/views.py:190-193 | deleting keeps every other row and leaves no (user, recipe) row |
| Views.MarkActionOutcome | backend/api/views.py:204-246 | 400 for a pk `int()` refuses; otherwise POST adds and DELETE deletes as above |
| Views.MarkAction | backend/api/views.py:204-246 | the status and the chosen table are those of the outcome above; the other table is untouched |
| Views.Favorite | backend/api/views.py:204-220 | acts on the favourites only; the cart is untouched |
| Views.ShoppingCart | backend/api/views.py:228-246 | acts on the cart only; the favourites are untouched |
| Views.SeparatorPaddedIdStatuses | backend/api/views.py:83-87 | an id such as `"\x1c5"` is malformed to `int()`: 400 on `favorite`/`shopping_cart`, 404 on `subscribe`, changing nothing |
| Views.MalformedIdStatuses | backend/api/views.py:83-87 | an id without a digit gives 400 on `favorite`/`shopping_cart` but 404 on `subscribe`, changing nothing |
| Views.MissingRecipeStatuses | backend/api/views.py:168-178 | for a recipe that does not exist, POST gives 400 and DELETE gives 404, changing nothing |
| Views.AddThenRemove | backend/api/views.py:204-220 | removing right after adding answers 204 and restores the table |
| Views.AddTwiceRefused | backend/api/serializers.py:109-115 | adding the same recipe twice is refused the second time and changes nothing |
| Views.CartRecipes | backend/api/views.py:258-261 | the recipes in the user's cart, exactly |
| Views.CartTotals | backend/api/views.py:262-268 | one group per ingredient, exactly for the ingredients some cart recipe uses |
| Views.SumAmountsUnused | backend/api/views.py:262-268 | an ingredient no cart recipe uses sums to 0 |
| Views.SumAmountsUnion | backend/api/views.py:262-268 | the sum over two disjoint sets of recipes is the sum of the two sums |
| Views.SumAmountsOfOneRow | backend/api/views.py:262-268 | with one row for a recipe and ingredient, that recipe contributes exactly that row's amount |
| Views.CartItems | backend/api/views.py:262-268 | the groups in the order the query yields them, each with its summed amount |
| Views.CartIngredientsExist | backend/api/utils.py:22-24 | every group names an ingredient that exists, so `Ingredient.objects.get` finds it |
| Views.DownloadShoppingCart | backend/api/views.py:255-274 | a new PDF canvas holds one row per ingredient of the cart in the query's order, each with its total |
| Views.DownloadRows | backend/api/views.py:258-268 | row `i` shows an ingredient some cart recipe uses, with the sum of its amounts over the cart's recipes |
| Pdf.RowOps | backend/api/utils.py:21-31 | one row per cart item |
| Pdf.Canvas.constructor | backend/api/utils.py:10 | a fresh canvas has no calls |
| Pdf.Canvas.SetFontCall | backend/api/utils.py:17 | records one `setFont` |
| Pdf.Canvas.DrawStringCall | backend/api/utils.py:18 | records one `drawString` |
| Pdf.Canvas.ShowPageCall | backend/api/utils.py:32 | records one `showPage` |
| Pdf.Canvas.SaveCall | backend/api/utils.py:33 | records one `save` |
| Pdf.ShoppingCartToPdf | backend/api/utils.py:9-34 | a new canvas, whose calls are the heading, one row per item with `row_step` dropping by 20, then one page break and the save |
| Pdf.PdfHeadingFirst | backend/api/utils.py:17-19 | the heading is drawn first at (15, 800) in size 32; every later text is a row at y at most 750 in size 15 |
| Pdf.PdfRowAt | backend/api/utils.py:20-31 | row `i` is item `i`'s text at (15, 750 - 20 i); there are exactly `|cart| + 5` calls |
| Pdf.PdfOnePage | backend/api/utils.py:32 | there is exactly one `showPage`, after the last row |
| Pdf.PdfRowsLeavePage | backend/api/utils.py:20-32 | row `i` falls below the page (y < 0) exactly from the 39th row on |
| Pdf.RowTextShowsAmount | backend/api/utils.py:26-30 | the amount in a row's text reads back as the item's amount |
| Filters.UsersLimit | backend/api/filters.py:17-21 | with a non-blank `limit`, the first `min(limit, count)` users of the whole table, whatever the queryset; it fails exactly when `int()` refuses the limit or it is negative; otherwise the queryset unchanged |
| Filters.UsersLimitTakesFirst | backend/api/filters.py:17-21 | the limited listing is ordered by username and no user left out comes before a listed one |
| Filters.UsersLimitIgnoresQueryset | backend/api/filters.py:17-21 | the result does not depend on what earlier filters kept |
| Filters.IngredientsByName | backend/api/filters.py:24-34 | keeps exactly the ingredients whose folded name starts with the folded value; a blank or absent value keeps all |
| Filters.IngredientsByNameKeepsOrder | backend/api/filters.py:24-34 | the result keeps the listing's order and has no repeats |
| Filters.LongerPrefixNarrows | backend/api/filters.py:27 | an ingredient that matches a longer prefix matches every prefix of it |
| Filters.ByTags | backend/api/filters.py:69-73 | keeps exactly the recipes of the queryset having a tag whose slug is among all the `tags` values; an absent or blank value keeps the queryset |
| Filters.AuthorValue | backend/api/filters.py:62-65 | a valid author value names an existing user |
| Filters.ByAuthor | backend/api/filters.py:61-67 | for a valid existing author, all that author's recipes whatever the queryset; for any other value, nothing |
| Filters.MarkedBy | backend/api/filters.py:81-83 | for a signed-in user, exactly the recipes they marked; for an anonymous visitor, exactly the recipes nobody marked |
| Filters.ByMark | backend/api/filters.py:75-95 | no value keeps the queryset; true for an anonymous visitor gives nothing; false, or true for a signed-in user, gives the marked recipes from the whole table |
| Filters.MarkFalseSameAsTrue | backend/api/filters.py:77-83 | for a signed-in user `false` lists exactly what `true` lists: the recipes they marked |
| Filters.RecipeListingOrdered | backend/api/filters.py:37-95 | the filtered listing is newest first and has no repeats |
| Filters.NarrowByAuthor | backend/api/filters.py:61-67 | the author filter as intended: keeps exactly the queryset's recipes by that author; a value naming no valid user keeps nothing; no value keeps the queryset |
| Filters.NarrowByMark | backend/api/filters.py:75-95 | the mark filters as intended, applied to the queryset: for a signed-in user either value keeps exactly the queryset's recipes the user marked; for an anonymous visitor `true` keeps nothing and `false` keeps exactly the queryset's recipes nobody marked; no value keeps the queryset |
| Filters.IntendedListingIsConjunction | backend/api/filters.py:37-95 | with every filter given, a recipe is listed exactly when it has a requested tag, is by the author, and is in the user's favourites and cart |
| Filters.AuthorFilterDropsTags | backend/api/filters.py:61-73 | with both `tags` and `author`, the listing as written is every recipe of the author, so a recipe without a requested tag is listed although the intended listing leaves it out |

## Left out

- The Base64 decoding of the payload and the image checks of `ImageField` are opaque library calls. The model keeps the payload text as the file's content.
- The PDF library's fonts, glyph rendering and document bytes are not modelled; the PDF is the sequence of canvas calls. The HTTP response wrapping it is not modelled either.
- Permissions, pagination, authentication and HTTP response bodies are left out. The model returns statuses only.
- The name, text and image field checks of the recipe serializer (length, presence of an image) are not modelled; only the presence of those fields is.
- `validate_me` is not part of this model; it is a parameter of `UserModels.UsernameValid`. What `\w` admits is a parameter too.
- The case folding of `istartswith` depends on the database; it is the parameter `fold` of `Filters.IngredientsByName`.
- `int()` here reads ASCII digits only. Python also accepts other Unicode decimal digits.
- PyText.PyInt: the limit on the length of decimal strings that `int()` reads (4300 digits by default from Python 3.11 on; configurable) is not modelled. A numeral longer than that is read by the model but refused by Python with a `ValueError`.
- Mixins.ValidatePkAcceptsIntegers: holds for numerals within the `int()` digit limit above; beyond it `validate_pk` returns false.
- PyText.PyIntReadsDecimal: holds for numerals within the `int()` digit limit above.
- Filters.UsersLimitTakesFirst: the order by username is the code-point order of `UserModels.StringLe`. The database orders by its collation, which can differ (for example in case or accents), so the users listed first may differ.
- UserModels.StringLe: code-point order of the usernames. The database collation is not modelled.
- The database's id and `pub_date` for a new recipe are parameters of `Serializers.CreateRecipe`, because they come from the database and the clock.
- The order in which the aggregation query yields its groups is a parameter (`order`) of `Views.DownloadShoppingCart`; SQL does not fix it.
- The exact-match filters UserFilter derives from `fields = '__all__'` are not modelled. Only `limit` is, and it discards whatever they kept.
- `RecipeSerializer.get_ingredients`, `get_is_favorited` and `get_is_in_shopping_cart`, `get_recipes_count`, and the `to_representation` methods are not modelled. They only shape response bodies.
- `MultipleObjectsReturned` from `update_or_create` is modelled: `Database.UpdateOrCreate` returns an error when two rows match, since the ingredient rows have no unique constraint. In the recipe update it cannot happen, because `clear()` runs first and the ids are distinct (`Database.UpdateOrCreateStep`). Every other lookup is on a unique key that `Database.Store.Valid` keeps. Recipe deletion, the `me` endpoint and user registration are not part of the core modelled here.
- Database.TagRows: the through-table rows are laid out in request order. Django collects the ids into a set and inserts them in that set's iteration order. `Serializers.CreateRecipe` therefore fixes one layout of the rows among those Django may produce. Nothing in the model reads the row order: `Database.TagsOf` is a set, and every property about tags is stated on it.
- QueryParams.CharFilterValue: a CharFilter value holding a NUL character is not modelled. Django's form field refuses it, so the filter form is invalid and the listing answers 400 before any filter runs. The model runs the filters on such a value (`Filters.UsersLimit`, `Filters.IngredientsByName`, `Filters.ByTags`, `Filters.ByAuthor`), and `limit=5\0` gives a server error where the source gives 400.
- Serializers.AuthorRecipes: stated with `get`. `'recipes_limit' in query_params` holds exactly when `get` finds a value (`QueryParams.GetIsLastOfList`).
- Serializers.ListedIsSubscribed: an exception without a request is modelled as None. The view always passes a request.
- Concurrency and races on the unique constraints are not modelled. Each request runs alone against the store.
- Django validators on model fields (cooking time, amount, colour, slug, username) run only when a form or `full_clean` calls them. The model states them as predicates and proves the serializer checks against them. It does not make them part of `Store.Valid`.

## Findings

| source | as written | input that shows it | evidently intended | confidence | as-written member | corrected member |
|---|---|---|---|---|---|---|
| backend/api/serializers.py:136-141 | `obj.followers.filter(user=user)` reads the rows in which the listed author is the follower | user 1 follows author 2; the subscriptions listing shows author 2 with `is_subscribed` false | true when the requester follows the author, as `CustomUserSerializer.get_is_subscribed` computes | not executed | Serializers.ListedIsSubscribedMissesFollowedAuthor | Serializers.IsSubscribed |
| backend/api/serializers.py:409-411 | `if tags is None: instance.tags.set(tags)`, so the tags are never replaced | a recipe tagged {10} updated with tags [20] stays tagged {10} | replace the tags whenever they are given, as `create` does | not executed | Serializers.UpdateKeepsStaleTags | Serializers.IntendedUpdateSetsTags |
| backend/api/filters.py:61-95 | `get_author` and the mark filters start over from `Recipe.objects`, discarding the filters before them | `?tags=lunch&author=7` lists every recipe of user 7, including those without the tag | every filter narrows the queryset it receives | not executed | Filters.AuthorFilterDropsTags | Filters.IntendedListingIsConjunction |
