/** backend/api/filters.py: the user, ingredient and recipe listings as
    django-filter narrows them from the query string. A listing is a
    sequence in the model's default order; the whole table in that order is
    passed in where a filter method starts over from
    `Model.objects`. */
module Filters {
  import opened Common
  import opened PyText
  import opened QueryParams
  import opened Mixins
  import opened UserModels
  import opened RecipeModels
  import opened Database

  // ---- UserFilter.get_users_limit ----

  /** The `limit` filter. django-filter calls the method only for a value
      that is not blank once stripped; the method then reads the last raw
      value with `int()`, and slices the whole table in default order (by
      username), whatever the other filters kept. `int()` refusing the
      value, or a negative slice bound, raises. */
  function UsersLimit(allUsers: seq<User>, queryset: seq<User>, params: Params): (r: Result<seq<User>, ServerError>)
    ensures CharFilterValue(params, "limit").None? ==> r == Ok(queryset)
    ensures CharFilterValue(params, "limit").Some? ==>
              (r.Ok? <==> var n := PyInt(Get(params, "limit").value); n.Some? && n.value >= 0)
    ensures CharFilterValue(params, "limit").Some? && r.Ok? ==>
              var n := PyInt(Get(params, "limit").value).value;
              |r.value| == Min(n, |allUsers|) && r.value == allUsers[..|r.value|]
  {
    match CharFilterValue(params, "limit")
    case None => Ok(queryset)
    case Some(_) =>
      match PyInt(Get(params, "limit").value)
      case None => Err(ServerError)
      case Some(n) => if n < 0 then Err(ServerError) else Ok(allUsers[..Min(n, |allUsers|)])
  }

  /** With a limit the listing is the first users by username: ordered, and
      no user left out comes before a listed one. */
  lemma UsersLimitTakesFirst(allUsers: seq<User>, queryset: seq<User>, params: Params)
    requires OrderedByUsername(allUsers)
    requires CharFilterValue(params, "limit").Some? && UsersLimit(allUsers, queryset, params).Ok?
    ensures var r := UsersLimit(allUsers, queryset, params).value;
            && OrderedByUsername(r)
            && forall i, j :: 0 <= i < |r| <= j < |allUsers| ==> StringLe(r[i].username, allUsers[j].username)
  {
    var r := UsersLimit(allUsers, queryset, params).value;
    forall i, j | 0 <= i < |r| <= j < |allUsers| ensures StringLe(r[i].username, allUsers[j].username) {
      assert r[i] == allUsers[i];
    }
  }

  /** The limit discards whatever the queryset was. */
  lemma UsersLimitIgnoresQueryset(allUsers: seq<User>, a: seq<User>, b: seq<User>, params: Params)
    requires CharFilterValue(params, "limit").Some?
    ensures UsersLimit(allUsers, a, params) == UsersLimit(allUsers, b, params)
  {
  }

  // ---- IngredientFilter ----

  /** `s` with `fold` applied to every character: the case folding the
      database applies on both sides of `istartswith`, which depends on the
      database, so it is a parameter. */
  function Fold(s: string, fold: char -> char): (r: string)
    ensures |r| == |s| && forall i :: 0 <= i < |s| ==> r[i] == fold(s[i])
  {
    seq(|s|, i requires 0 <= i < |s| => fold(s[i]))
  }

  /** Whether `name` starts with `prefix` once both are folded. */
  predicate FoldedPrefix(name: string, prefix: string, fold: char -> char) {
    StartsWith(Fold(name, fold), Fold(prefix, fold))
  }

  /** `IngredientFilter`: `name` keeps the ingredients whose name starts
      with the stripped value, ignoring case; a blank or absent value keeps
      everything. */
  function IngredientsByName(ingredients: seq<Ingredient>, params: Params, fold: char -> char): (r: seq<Ingredient>)
    ensures CharFilterValue(params, "name").None? ==> r == ingredients
    ensures CharFilterValue(params, "name").Some? ==>
              forall x :: x in r <==> x in ingredients && FoldedPrefix(x.name, CharFilterValue(params, "name").value, fold)
  {
    match CharFilterValue(params, "name")
    case None => ingredients
    case Some(v) => Filter(ingredients, (x: Ingredient) => FoldedPrefix(x.name, v, fold))
  }

  /** The filter keeps the listing's order and never repeats an entry. */
  lemma IngredientsByNameKeepsOrder(ingredients: seq<Ingredient>, params: Params, fold: char -> char)
    requires Distinct(ingredients)
    ensures IsSubsequence(IngredientsByName(ingredients, params, fold), ingredients)
    ensures Distinct(IngredientsByName(ingredients, params, fold))
  {
    match CharFilterValue(params, "name")
    case None =>
      IsSubsequenceRefl(ingredients);
    case Some(v) =>
      FilterIsSubsequence(ingredients, (x: Ingredient) => FoldedPrefix(x.name, v, fold));
      FilterKeepsDistinct(ingredients, (x: Ingredient) => FoldedPrefix(x.name, v, fold));
  }

  lemma {:induction false} IsSubsequenceRefl<T>(s: seq<T>)
    ensures IsSubsequence(s, s)
  {
    if s != [] {
      IsSubsequenceRefl(s[1..]);
    }
  }

  /** Typing a longer prefix never brings back an ingredient a shorter one
      left out. */
  lemma LongerPrefixNarrows(name: string, shorter: string, longer: string, fold: char -> char)
    requires StartsWith(longer, shorter)
    requires FoldedPrefix(name, longer, fold)
    ensures FoldedPrefix(name, shorter, fold)
  {
    var f := Fold(name, fold);
    forall i | 0 <= i < |shorter| ensures f[i] == fold(shorter[i]) {
      assert shorter[i] == longer[i];
      assert Fold(longer, fold)[i] == f[i];
    }
  }

  // ---- RecipeFilter ----

  /** Whether recipe `id` carries a tag whose slug is in `slugs`. */
  predicate HasTagIn(id: RecipeId, tagRows: seq<RecipeTag>, tags: map<TagId, Tag>, slugs: seq<string>) {
    exists i :: 0 <= i < |tagRows| && tagRows[i].recipe == id && tagRows[i].tag in tags
                && tags[tagRows[i].tag].slug in slugs
  }

  /** `get_tags`: run for a value that is not blank once stripped; keeps
      the queryset's recipes that have a tag whose slug is among all the
      raw `tags` values, each once (`distinct()`). */
  function ByTags(queryset: seq<Recipe>, tagRows: seq<RecipeTag>, tags: map<TagId, Tag>, params: Params): (r: seq<Recipe>)
    ensures CharFilterValue(params, "tags").None? ==> r == queryset
    ensures CharFilterValue(params, "tags").Some? ==>
              forall x :: x in r <==> x in queryset && HasTagIn(x.id, tagRows, tags, GetList(params, "tags"))
  {
    match CharFilterValue(params, "tags")
    case None => queryset
    case Some(_) =>
      var slugs := GetList(params, "tags");
      Filter(queryset, (x: Recipe) => HasTagIn(x.id, tagRows, tags, slugs))
  }

  /** The author a valid `author` value names: `validate_pk` passes and a
      user has that id. */
  function AuthorValue(users: map<UserId, User>, params: Params): (r: Option<UserId>)
    ensures r.Some? ==> r.value in users
  {
    match CharFilterValue(params, "author")
    case None => None
    case Some(v) =>
      if ValidatePk(v) && PyInt(v).value in users then Some(PyInt(v).value) else None
  }

  /** The recipes of `author`, in default order. */
  function RecipesOf(all: seq<Recipe>, author: UserId): seq<Recipe> {
    Filter(all, (x: Recipe) => x.author == author)
  }

  /** `get_author` as written: for a valid existing author it returns all
      of that author's recipes, starting over from `Recipe.objects`; for
      any other non-blank value, nothing. */
  function ByAuthor(queryset: seq<Recipe>, all: seq<Recipe>, users: map<UserId, User>, params: Params): (r: seq<Recipe>)
    ensures CharFilterValue(params, "author").None? ==> r == queryset
    ensures CharFilterValue(params, "author").Some? && AuthorValue(users, params).None? ==> r == []
    ensures AuthorValue(users, params).Some? ==> r == RecipesOf(all, AuthorValue(users, params).value)
  {
    match CharFilterValue(params, "author")
    case None => queryset
    case Some(_) =>
      match AuthorValue(users, params)
      case None => []
      case Some(a) => RecipesOf(all, a)
  }

  /** `Recipe.objects.filter(favorite__user=user.pk)` (or `shopping_list`)
      for the rows `marks`: the recipes the user marked. An anonymous
      visitor's pk is None, and a lookup against None through a reverse
      relation means "has no such row", so it gives the recipes nobody
      marked. */
  function MarkedBy(all: seq<Recipe>, marks: seq<Mark>, visitor: Visitor): (r: seq<Recipe>)
    ensures visitor.Authenticated? ==>
              forall x :: x in r <==> x in all && Mark(visitor.id, x.id) in marks
    ensures visitor.Anonymous? ==>
              forall x :: x in r <==> x in all && forall i :: 0 <= i < |marks| ==> marks[i].recipe != x.id
  {
    match visitor
    case Authenticated(u) => Filter(all, (x: Recipe) => Mark(u, x.id) in marks)
    case Anonymous => Filter(all, (x: Recipe) => forall i :: 0 <= i < |marks| ==> marks[i].recipe != x.id)
  }

  /** `get_is_favorite` / `get_is_in_shopping_cart` as written, given the
      BooleanFilter's value (None: the filter does not run). The test
      `(user.is_authenticated and value) or not value` sends false to the
      same lookup as true; only an anonymous visitor with true gets
      nothing. */
  function ByMark(queryset: seq<Recipe>, all: seq<Recipe>, marks: seq<Mark>, visitor: Visitor, value: Option<bool>): (r: seq<Recipe>)
    ensures value.None? ==> r == queryset
    ensures value == Some(true) && visitor.Anonymous? ==> r == []
    ensures value == Some(false) || (value == Some(true) && visitor.Authenticated?) ==> r == MarkedBy(all, marks, visitor)
  {
    match value
    case None => queryset
    case Some(b) => if (visitor.Authenticated? && b) || !b then MarkedBy(all, marks, visitor) else []
  }

  /** The tables a recipe listing reads. */
  datatype RecipeTables = RecipeTables(
    all: seq<Recipe>,
    users: map<UserId, User>,
    tags: map<TagId, Tag>,
    tagRows: seq<RecipeTag>,
    favorites: seq<Mark>,
    carts: seq<Mark>
  )

  /** The recipe listing as written: the filters run in the order
      `tags`, `author`, `is_favorited`, `is_in_shopping_cart`, each on the
      previous one's result, starting from every recipe in default order. */
  function RecipeListing(t: RecipeTables, visitor: Visitor, params: Params): seq<Recipe> {
    var afterTags := ByTags(t.all, t.tagRows, t.tags, params);
    var afterAuthor := ByAuthor(afterTags, t.all, t.users, params);
    var afterFavorites := ByMark(afterAuthor, t.all, t.favorites, visitor, BooleanFilterValue(params, "is_favorited"));
    ByMark(afterFavorites, t.all, t.carts, visitor, BooleanFilterValue(params, "is_in_shopping_cart"))
  }

  /** `is_favorited=false` lists exactly what `is_favorited=true` lists for
      a signed-in user; likewise for the shopping cart. */
  lemma MarkFalseSameAsTrue(queryset: seq<Recipe>, all: seq<Recipe>, marks: seq<Mark>, user: UserId)
    ensures ByMark(queryset, all, marks, Authenticated(user), Some(false))
            == ByMark(queryset, all, marks, Authenticated(user), Some(true))
    ensures forall x :: x in ByMark(queryset, all, marks, Authenticated(user), Some(false)) <==>
                        x in all && Mark(user, x.id) in marks
  {
  }

  /** The listing stays in default order, newest first, and lists no
      recipe twice. */
  lemma RecipeListingOrdered(t: RecipeTables, visitor: Visitor, params: Params)
    requires NewestFirst(t.all) && Distinct(t.all)
    ensures NewestFirst(RecipeListing(t, visitor, params))
    ensures Distinct(RecipeListing(t, visitor, params))
  {
    var slugs := GetList(params, "tags");
    var tagTest := (x: Recipe) => HasTagIn(x.id, t.tagRows, t.tags, slugs);
    FilterKeepsNewestFirst(t.all, tagTest);
    FilterKeepsDistinct(t.all, tagTest);
    var afterTags := ByTags(t.all, t.tagRows, t.tags, params);
    SelectionsOrdered(t.all, afterTags, t.users, t.favorites, t.carts, visitor, params);
  }

  /** Each stage after the tag filter keeps its input or restarts from the
      whole table. */
  lemma SelectionsOrdered(all: seq<Recipe>, queryset: seq<Recipe>, users: map<UserId, User>,
                          favorites: seq<Mark>, carts: seq<Mark>, visitor: Visitor, params: Params)
    requires NewestFirst(all) && Distinct(all) && NewestFirst(queryset) && Distinct(queryset)
    ensures var afterAuthor := ByAuthor(queryset, all, users, params);
            var afterFavorites := ByMark(afterAuthor, all, favorites, visitor, BooleanFilterValue(params, "is_favorited"));
            var r := ByMark(afterFavorites, all, carts, visitor, BooleanFilterValue(params, "is_in_shopping_cart"));
            NewestFirst(r) && Distinct(r)
  {
    var afterAuthor := ByAuthor(queryset, all, users, params);
    if AuthorValue(users, params).Some? {
      var a := AuthorValue(users, params).value;
      FilterKeepsNewestFirst(all, (x: Recipe) => x.author == a);
      FilterKeepsDistinct(all, (x: Recipe) => x.author == a);
    }
    MarkedByOrdered(all, favorites, visitor);
    MarkedByOrdered(all, carts, visitor);
  }

  lemma MarkedByOrdered(all: seq<Recipe>, marks: seq<Mark>, visitor: Visitor)
    requires NewestFirst(all) && Distinct(all)
    ensures NewestFirst(MarkedBy(all, marks, visitor)) && Distinct(MarkedBy(all, marks, visitor))
  {
    match visitor
    case Authenticated(u) =>
      FilterKeepsNewestFirst(all, (x: Recipe) => Mark(u, x.id) in marks);
      FilterKeepsDistinct(all, (x: Recipe) => Mark(u, x.id) in marks);
    case Anonymous =>
      var p := (x: Recipe) => forall i :: 0 <= i < |marks| ==> marks[i].recipe != x.id;
      FilterKeepsNewestFirst(all, p);
      FilterKeepsDistinct(all, p);
  }

  // ---- the listing the filters were meant to produce ----

  /** Each filter narrowing the queryset it is given instead of starting
      over: the author filter as intended. */
  function NarrowByAuthor(queryset: seq<Recipe>, users: map<UserId, User>, params: Params): (r: seq<Recipe>)
    ensures CharFilterValue(params, "author").None? ==> r == queryset
    ensures CharFilterValue(params, "author").Some? && AuthorValue(users, params).None? ==> r == []
    ensures AuthorValue(users, params).Some? ==>
              forall x :: x in r <==> x in queryset && x.author == AuthorValue(users, params).value
  {
    match CharFilterValue(params, "author")
    case None => queryset
    case Some(_) =>
      match AuthorValue(users, params)
      case None => []
      case Some(a) => Filter(queryset, (x: Recipe) => x.author == a)
  }

  /** The mark filters as intended: the same test, applied to the queryset. */
  function NarrowByMark(queryset: seq<Recipe>, marks: seq<Mark>, visitor: Visitor, value: Option<bool>): (r: seq<Recipe>)
    ensures value.None? ==> r == queryset
    ensures value == Some(true) && visitor.Anonymous? ==> r == []
    ensures value.Some? && visitor.Authenticated? ==>
              forall x :: x in r <==> x in queryset && Mark(visitor.id, x.id) in marks
    ensures value == Some(false) && visitor.Anonymous? ==>
              forall x :: x in r <==> x in queryset && forall i :: 0 <= i < |marks| ==> marks[i].recipe != x.id
  {
    match value
    case None => queryset
    case Some(b) => if (visitor.Authenticated? && b) || !b then MarkedBy(queryset, marks, visitor) else []
  }

  /** The listing with every filter narrowing the previous result. */
  function IntendedRecipeListing(t: RecipeTables, visitor: Visitor, params: Params): seq<Recipe> {
    var afterTags := ByTags(t.all, t.tagRows, t.tags, params);
    var afterAuthor := NarrowByAuthor(afterTags, t.users, params);
    var afterFavorites := NarrowByMark(afterAuthor, t.favorites, visitor, BooleanFilterValue(params, "is_favorited"));
    NarrowByMark(afterFavorites, t.carts, visitor, BooleanFilterValue(params, "is_in_shopping_cart"))
  }

  /** The intended listing is the conjunction of the filters: a recipe is
      listed exactly when it has one of the tags and is by the author and
      is in the user's favorites and in their cart, for each filter given. */
  lemma IntendedListingIsConjunction(t: RecipeTables, user: UserId, params: Params, x: Recipe)
    requires CharFilterValue(params, "tags").Some? && AuthorValue(t.users, params).Some?
    requires BooleanFilterValue(params, "is_favorited") == Some(true)
    requires BooleanFilterValue(params, "is_in_shopping_cart") == Some(true)
    ensures x in IntendedRecipeListing(t, Authenticated(user), params) <==>
              && x in t.all
              && HasTagIn(x.id, t.tagRows, t.tags, GetList(params, "tags"))
              && x.author == AuthorValue(t.users, params).value
              && Mark(user, x.id) in t.favorites
              && Mark(user, x.id) in t.carts
  {
  }

  /** The discrepancy: with an author given (and no mark filter), the
      listing as written is every recipe of that author, whatever the
      tags asked for; so a recipe without any requested tag is listed,
      which the intended listing leaves out. */
  lemma AuthorFilterDropsTags(t: RecipeTables, visitor: Visitor, params: Params, x: Recipe)
    requires CharFilterValue(params, "tags").Some? && AuthorValue(t.users, params).Some?
    requires BooleanFilterValue(params, "is_favorited").None?
    requires BooleanFilterValue(params, "is_in_shopping_cart").None?
    requires x in t.all && x.author == AuthorValue(t.users, params).value
    requires !HasTagIn(x.id, t.tagRows, t.tags, GetList(params, "tags"))
    ensures RecipeListing(t, visitor, params) == RecipesOf(t.all, x.author)
    ensures x in RecipeListing(t, visitor, params)
    ensures x !in IntendedRecipeListing(t, visitor, params)
  {
    assert x in RecipesOf(t.all, x.author);
  }
}
