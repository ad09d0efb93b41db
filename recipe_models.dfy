/** backend/recipes/models.py: tags, ingredients, recipes and the tables that
    link them, with the field validators and the constraints the database
    enforces. */
module RecipeModels {
  import opened Common
  import opened UserModels

  type TagId = int
  type IngredientId = int
  type RecipeId = int

  datatype Tag = Tag(id: TagId, name: string, color: string, slug: string)

  datatype Ingredient = Ingredient(id: IngredientId, name: string, measurementUnit: string)

  /** `pubDate` is the creation time as a number; later is larger. */
  datatype Recipe = Recipe(
    id: RecipeId,
    author: UserId,
    name: string,
    text: string,
    cookingTime: int,
    image: string,
    pubDate: int
  )

  /** A row of RecipeIngredient: `amount` of `ingredient` in `recipe`. */
  datatype RecipeIngredient = RecipeIngredient(recipe: RecipeId, ingredient: IngredientId, amount: int)

  /** A row of RecipeTags. */
  datatype RecipeTag = RecipeTag(recipe: RecipeId, tag: TagId)

  /** A row of Favorite or of ShoppingCart; the two tables have the same
      columns. */
  datatype Mark = Mark(user: UserId, recipe: RecipeId)

  // ---- Tag.color: RegexValidator(r'#[A-F0-9]{6}') ----

  predicate IsUpperHexDigit(c: char) {
    '0' <= c <= '9' || 'A' <= c <= 'F'
  }

  /** The colour pattern matches at index `i` of `s`. */
  predicate ColorAt(s: string, i: int) {
    && 0 <= i && i + 7 <= |s|
    && s[i] == '#'
    && forall k :: i + 1 <= k <= i + 6 ==> IsUpperHexDigit(s[k])
  }

  /** The regular expression search RegexValidator performs (the pattern has
      no anchor, so a match anywhere counts): the first index at or after
      `from` where the pattern matches. */
  function SearchColor(s: string, from: nat): (r: Option<nat>)
    requires from <= |s|
    ensures r.Some? ==> from <= r.value && ColorAt(s, r.value)
    ensures r.Some? ==> forall j :: from <= j < r.value ==> !ColorAt(s, j)
    ensures r.None? ==> forall j :: from <= j ==> !ColorAt(s, j)
    decreases |s| - from
  {
    if ColorAt(s, from) then Some(from)
    else if from + 7 >= |s| then None
    else SearchColor(s, from + 1)
  }

  /** Every validator on `Tag.color`: the length limit and the pattern. */
  predicate ColorValid(settings: Settings, color: string) {
    |color| <= settings.tagColorMaxLength && SearchColor(color, 0).Some?
  }

  /** A colour passes exactly when it fits the length limit and contains
      '#' followed by six upper-case hexadecimal digits somewhere. */
  lemma ColorValidIff(settings: Settings, color: string)
    ensures ColorValid(settings, color) <==>
            |color| <= settings.tagColorMaxLength && exists i :: ColorAt(color, i)
  {
    if exists i :: ColorAt(color, i) {
      var i :| ColorAt(color, i);
      assert SearchColor(color, 0).Some?;
    }
  }

  /** Text around the six digits does not matter: the search is not
      anchored. */
  lemma ColorAcceptsSurroundingText(settings: Settings, before: string, hex: string, after: string)
    requires |hex| == 6 && forall k :: 0 <= k < 6 ==> IsUpperHexDigit(hex[k])
    requires |before| + 7 + |after| <= settings.tagColorMaxLength
    ensures ColorValid(settings, before + "#" + hex + after)
  {
    var s := before + "#" + hex + after;
    assert ColorAt(s, |before|) by {
      var i := |before|;
      forall k | i + 1 <= k <= i + 6 ensures IsUpperHexDigit(s[k]) {
        assert s[k] == hex[k - i - 1];
      }
    }
    ColorValidIff(settings, s);
  }

  /** Lower-case hexadecimal digits do not match. */
  lemma ColorRejectsLowerCase(settings: Settings)
    ensures !ColorValid(settings, "#000fff")
  {
    var s := "#000fff";
    assert !IsUpperHexDigit(s[4]);
    assert forall j :: !ColorAt(s, j);
    ColorValidIff(settings, s);
  }

  // ---- Tag.slug: SlugField with RegexValidator(r'^[-a-zA-Z0-9_]+$') ----

  predicate IsSlugChar(c: char) {
    'a' <= c <= 'z' || 'A' <= c <= 'Z' || '0' <= c <= '9' || c == '-' || c == '_'
  }

  predicate AllSlugChars(s: string) {
    forall i :: 0 <= i < |s| ==> IsSlugChar(s[i])
  }

  /** The field's own pattern `^[-a-zA-Z0-9_]+$`. In Python, `$` also
      matches just before a final newline, so one trailing "\n" is let
      through. */
  predicate SlugPatternMatches(s: string) {
    || (s != [] && AllSlugChars(s))
    || (|s| >= 2 && s[|s| - 1] == '\n' && AllSlugChars(s[..|s| - 1]))
  }

  /** The validator every SlugField carries, `validate_slug`, whose pattern
      `^[-a-zA-Z0-9_]+\Z` ends at the very end of the string. */
  predicate DjangoSlugMatches(s: string) {
    s != [] && AllSlugChars(s)
  }

  /** Every validator on `Tag.slug`. */
  predicate SlugValid(settings: Settings, slug: string) {
    && |slug| <= settings.tagSlugMaxLength
    && SlugPatternMatches(slug)
    && DjangoSlugMatches(slug)
  }

  /** Together the validators accept exactly the non-empty strings of ASCII
      letters, digits, '-' and '_' within the length limit. */
  lemma SlugValidIff(settings: Settings, slug: string)
    ensures SlugValid(settings, slug) <==>
            |slug| <= settings.tagSlugMaxLength && slug != [] &&
            forall i :: 0 <= i < |slug| ==> IsSlugChar(slug[i])
  {
  }

  /** The explicit pattern alone would accept a slug with a final newline;
      only the SlugField's built-in validator rejects it. */
  lemma SlugPatternAloneAllowsNewline(w: string)
    requires w != [] && AllSlugChars(w)
    ensures SlugPatternMatches(w + "\n") && !DjangoSlugMatches(w + "\n")
  {
    var s := w + "\n";
    assert s[..|s| - 1] == w;
    assert !IsSlugChar(s[|s| - 1]);
  }

  // ---- unique fields and constraints ----

  /** Tag is keyed by id, and name, color and slug are each unique. */
  predicate TagsUnique(tags: map<TagId, Tag>) {
    && (forall id | id in tags :: tags[id].id == id)
    && (forall a, b | a in tags && b in tags && a != b ::
          && tags[a].name != tags[b].name
          && tags[a].color != tags[b].color
          && tags[a].slug != tags[b].slug)
  }

  /** Ingredient is keyed by id, and `unique_ingredient` makes the pair
      (name, measurement unit) unique. */
  predicate IngredientsUnique(ingredients: map<IngredientId, Ingredient>) {
    && (forall id | id in ingredients :: ingredients[id].id == id)
    && (forall a, b | a in ingredients && b in ingredients && a != b ::
          (ingredients[a].name, ingredients[a].measurementUnit)
          != (ingredients[b].name, ingredients[b].measurementUnit))
  }

  /** `unique_favorite_recipe` and `unique_shopping_list_recipe`: one row
      per (user, recipe). RecipeIngredient has no such constraint. */
  predicate MarksUnique(marks: seq<Mark>) {
    Distinct(marks)
  }

  // ---- bounds ----

  /** The validators on `Recipe.cooking_time`. */
  predicate CookingTimeInRange(settings: Settings, t: int) {
    settings.recipeMinVol <= t <= settings.recipeMaxVol
  }

  /** The validators on `RecipeIngredient.amount`. Model validators run
      only when a form or `full_clean` calls them; the API saves rows
      without doing so. */
  predicate ModelAmountInRange(settings: Settings, a: int) {
    settings.recipeIngMinVol <= a <= settings.recipeIngMaxVol
  }

  // ---- ordering ----

  /** The default ordering of Recipe, `-pub_date`: newest first. */
  predicate NewestFirst(recipes: seq<Recipe>) {
    forall i, j :: 0 <= i < j < |recipes| ==> recipes[i].pubDate >= recipes[j].pubDate
  }

  lemma NewestFirstCons(x: Recipe, t: seq<Recipe>)
    requires NewestFirst(t)
    requires forall k :: 0 <= k < |t| ==> t[k].pubDate <= x.pubDate
    ensures NewestFirst([x] + t)
  {
    var s := [x] + t;
    forall i, j | 0 <= i < j < |s| ensures s[i].pubDate >= s[j].pubDate {
      assert s[j] == t[j - 1];
      if i > 0 { assert s[i] == t[i - 1]; }
    }
  }

  /** Any selection from a listing in default order is still in default
      order. */
  lemma {:induction false} FilterKeepsNewestFirst(recipes: seq<Recipe>, p: Recipe -> bool)
    requires NewestFirst(recipes)
    ensures NewestFirst(Filter(recipes, p))
  {
    if recipes != [] {
      var rest := recipes[1..];
      assert NewestFirst(rest);
      FilterKeepsNewestFirst(rest, p);
      if p(recipes[0]) {
        var t := Filter(rest, p);
        forall k | 0 <= k < |t| ensures t[k].pubDate <= recipes[0].pubDate {
          var m :| 0 <= m < |rest| && rest[m] == t[k];
          assert recipes[m + 1] == t[k];
        }
        NewestFirstCons(recipes[0], t);
      }
    }
  }
}
