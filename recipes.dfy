/**
 * The three read endpoints of the recipe router: the listing of all recipes,
 * the assembled recipe behind a slug, and the recipes whose tags section
 * matches a tag.
 *
 * The database is replaced by the two tables as sequences of rows; each query
 * is a function of them. The detail endpoint builds its answer in a Python
 * dictionary that it rewrites entry by entry; here that dictionary is a local
 * `map` the method reassigns in the same order.
 */
module Recipes {
  import opened Wrappers
  import opened Schema
  import opened Query
  import opened PyStr
  import opened PyInt
  import opened SqlLike

  /** A row of the listing: the `RecipeBase` response model. */
  datatype RecipeBase = RecipeBase(title: string, excerpt: string, featuredImage: string, slug: string)

  /** A row of the tag lookup: the `RecipeTag` response model. */
  datatype RecipeTag = RecipeTag(
    title: string,
    slug: string,
    featuredImage: string,
    excerpt: string,
    recipeId: Uuid)

  /** The values the detail dictionary holds: stored text, parsed integers, split lists, a recipe id. */
  datatype Value = Text(s: string) | Int(n: int) | Pieces(items: seq<string>) | Ident(id: Uuid)

  /** The dictionary the detail endpoint returns, keyed by section name. */
  type Response = map<string, Value>

  /** An HTTP error raised by an endpoint. */
  datatype Error = HttpError(status: nat, detail: string)

  const InternalServerError: nat := 500

  /** The one error the detail endpoint raises, whatever went wrong. */
  const FetchRecipeError := HttpError(InternalServerError, "Could not fetch recipe")

  /** The columns the detail endpoint reads from the recipe itself. */
  datatype RecipeKey = RecipeKey(excerpt: string, id: Uuid)

  // ---------------------------------------------------------------------
  // GET /recipes/all
  // ---------------------------------------------------------------------

  function Summary(r: Recipe): RecipeBase
  {
    RecipeBase(r.title, r.excerpt, r.featuredImage, r.slug)
  }

  /** Every recipe row, active or not, projected to the listing shape, in table order. */
  function GetAllRecipes(recipes: seq<Recipe>): (listing: seq<RecipeBase>)
    ensures |listing| == |recipes|
    ensures forall i :: 0 <= i < |recipes| ==> listing[i] == Summary(recipes[i])
    ensures forall r :: r in recipes ==> Summary(r) in listing
    ensures forall b :: b in listing ==> exists r :: r in recipes && b == Summary(r)
  {
    if recipes == [] then []
    else [Summary(recipes[0])] + GetAllRecipes(recipes[1..])
  }

  /** The listing does not look at `activeRecipe`: setting the flags any other way lists the same rows. */
  lemma ListingIgnoresActive(recipes: seq<Recipe>, flags: seq<bool>)
    requires |flags| == |recipes|
    ensures GetAllRecipes(recipes) ==
      GetAllRecipes(seq(|recipes|, i requires 0 <= i < |recipes| => recipes[i].(activeRecipe := flags[i])))
  {
  }

  // ---------------------------------------------------------------------
  // GET /recipe/{slug}
  // ---------------------------------------------------------------------

  /** The index of the first recipe with the slug, or `|recipes|` when there is none. */
  function FirstIndex(recipes: seq<Recipe>, slug: string): (k: nat)
    ensures k <= |recipes|
    ensures forall j :: 0 <= j < k ==> recipes[j].slug != slug
    ensures k < |recipes| ==> recipes[k].slug == slug
  {
    if recipes == [] then 0
    else if recipes[0].slug == slug then 0
    else 1 + FirstIndex(recipes[1..], slug)
  }

  /** `query(Recipe.excerpt, Recipe.id).filter(Recipe.slug == slug).first()`. */
  function FirstBySlug(recipes: seq<Recipe>, slug: string): (found: Option<RecipeKey>)
    ensures found.None? <==> forall i :: 0 <= i < |recipes| ==> recipes[i].slug != slug
    ensures found.Some? ==>
      var k := FirstIndex(recipes, slug);
      k < |recipes| && found.value == RecipeKey(recipes[k].excerpt, recipes[k].id)
  {
    var k := FirstIndex(recipes, slug);
    if k < |recipes| then Some(RecipeKey(recipes[k].excerpt, recipes[k].id)) else None
  }

  function SectionOf(p: (Recipe, RecipeContent)): (string, string)
  {
    (p.1.section, p.1.content)
  }

  function Sections(pairs: seq<(Recipe, RecipeContent)>): (rows: seq<(string, string)>)
    ensures |rows| == |pairs|
    ensures forall i :: 0 <= i < |pairs| ==> rows[i] == SectionOf(pairs[i])
  {
    if pairs == [] then [] else [SectionOf(pairs[0])] + Sections(pairs[1..])
  }

  /** The filter `Recipe.slug == slug` on a joined row. */
  function OfSlug(slug: string): ((Recipe, RecipeContent)) -> bool
  {
    (p: (Recipe, RecipeContent)) => p.0.slug == slug
  }

  /**
   * `query(RecipeContent.section, RecipeContent.content).join(Recipe, ...)
   * .filter(Recipe.slug == slug).all()`: the sections of every recipe that has
   * the slug (not only of the first one, since slugs are not unique).
   */
  function ContentForSlug(recipes: seq<Recipe>, contents: seq<RecipeContent>, slug: string): seq<(string, string)>
  {
    Sections(Select(InnerJoin(recipes, contents), OfSlug(slug)))
  }

  /** The detail rows are exactly the sections owned by some recipe that has the slug. */
  lemma ContentForSlugRows(recipes: seq<Recipe>, contents: seq<RecipeContent>, slug: string)
    ensures forall row :: row in ContentForSlug(recipes, contents, slug) <==>
      (exists r, c :: r in recipes && c in contents && c.recipeId == r.id && r.slug == slug
                      && row == (c.section, c.content))
  {
    var pairs := Select(InnerJoin(recipes, contents), OfSlug(slug));
    var rows := Sections(pairs);
    forall row | row in rows
      ensures exists r, c :: (r in recipes && c in contents && c.recipeId == r.id && r.slug == slug
                              && row == (c.section, c.content))
    {
      var i :| 0 <= i < |rows| && rows[i] == row;
      var p := pairs[i];
      assert p in pairs;
      assert p.0 in recipes && p.1 in contents;
    }
    forall r, c | r in recipes && c in contents && c.recipeId == r.id && r.slug == slug
      ensures (c.section, c.content) in rows
    {
      assert (r, c) in pairs;
      var i :| 0 <= i < |pairs| && pairs[i] == (r, c);
      assert rows[i] == (c.section, c.content);
    }
  }

  /** Recipes that own no slug-matching row add nothing to the content query. */
  lemma OtherSlugsAddNothing(rs: seq<Recipe>, contents: seq<RecipeContent>, slug: string)
    requires forall i :: 0 <= i < |rs| ==> rs[i].slug != slug
    ensures Select(InnerJoin(rs, contents), OfSlug(slug)) == []
  {
    var pairs := InnerJoin(rs, contents);
    forall i | 0 <= i < |pairs|
      ensures !OfSlug(slug)(pairs[i])
    {
      assert pairs[i] in pairs;
      assert pairs[i].0 in rs;
    }
    SelectNone(pairs, OfSlug(slug));
  }

  /**
   * When exactly one recipe row has the slug, the content query returns that
   * recipe's own content rows, each once, in table order, whatever the other
   * recipes and their rows are.
   */
  lemma UniqueSlugContent(recipes: seq<Recipe>, contents: seq<RecipeContent>, k: nat)
    requires k < |recipes|
    requires forall i :: 0 <= i < |recipes| && i != k ==> recipes[i].slug != recipes[k].slug
    ensures ContentForSlug(recipes, contents, recipes[k].slug) == Sections(RowsOf(recipes[k], contents))
    ensures var own := Select(contents, OwnedBy(recipes[k]));
      var rows := ContentForSlug(recipes, contents, recipes[k].slug);
      && |rows| == |own|
      && forall i :: 0 <= i < |own| ==> rows[i] == (own[i].section, own[i].content)
  {
    var r := recipes[k];
    var pre, post := recipes[..k], recipes[k + 1..];
    assert recipes == pre + [r] + post;
    forall i | 0 <= i < |pre|
      ensures pre[i].slug != r.slug
    {
      assert pre[i] == recipes[i];
    }
    forall i | 0 <= i < |post|
      ensures post[i].slug != r.slug
    {
      assert post[i] == recipes[k + 1 + i];
    }
    SelectAroundRecipe(pre, r, post, contents);
    RowsOfOwn(r, contents);
  }

  /** The slug filter over `pre + [r] + post`, when neither side has `r`'s slug, keeps `r`'s rows only. */
  lemma SelectAroundRecipe(pre: seq<Recipe>, r: Recipe, post: seq<Recipe>, contents: seq<RecipeContent>)
    requires forall i :: 0 <= i < |pre| ==> pre[i].slug != r.slug
    requires forall i :: 0 <= i < |post| ==> post[i].slug != r.slug
    ensures Select(InnerJoin(pre + [r] + post, contents), OfSlug(r.slug)) == RowsOf(r, contents)
  {
    var keep := OfSlug(r.slug);
    InnerJoinAppend(pre + [r], post, contents);
    InnerJoinAppend(pre, [r], contents);
    var before, mine, after := InnerJoin(pre, contents), InnerJoin([r], contents), InnerJoin(post, contents);
    SelectAppend(before + mine, after, keep);
    SelectAppend(before, mine, keep);
    OtherSlugsAddNothing(pre, contents, r.slug);
    OtherSlugsAddNothing(post, contents, r.slug);
    SoleRecipeJoin(r, contents);
    forall i | 0 <= i < |mine|
      ensures keep(mine[i])
    {
      assert mine[i] in RowsOf(r, contents);
    }
    SelectAll(mine, keep);
    assert [] + mine + [] == mine;
  }

  /** Joining a one-recipe table gives that recipe's rows. */
  lemma SoleRecipeJoin(r: Recipe, contents: seq<RecipeContent>)
    ensures InnerJoin([r], contents) == RowsOf(r, contents)
  {
    assert [r][1..] == [];
    assert RowsOf(r, contents) + [] == RowsOf(r, contents);
  }

  /** `{row[0]: row[1] for row in rows}`: a later row for the same section replaces an earlier one. */
  function SectionMap(rows: seq<(string, string)>): map<string, string>
  {
    if rows == [] then map[]
    else SectionMap(rows[..|rows| - 1])[rows[|rows| - 1].0 := rows[|rows| - 1].1]
  }

  /** A section is present exactly when some row names it. */
  lemma {:induction false} SectionMapKeys(rows: seq<(string, string)>, key: string)
    ensures key in SectionMap(rows) <==> exists i :: 0 <= i < |rows| && rows[i].0 == key
  {
    if rows != [] {
      var init := rows[..|rows| - 1];
      SectionMapKeys(init, key);
      if exists i :: 0 <= i < |init| && init[i].0 == key {
        var i :| 0 <= i < |init| && init[i].0 == key;
        assert rows[i].0 == key;
      }
      if exists i :: 0 <= i < |rows| && rows[i].0 == key {
        var i :| 0 <= i < |rows| && rows[i].0 == key;
        if i < |rows| - 1 {
          assert init[i].0 == key;
        }
      }
    }
  }

  /** The last row that names a section is the one whose content the map keeps. */
  lemma {:induction false} LastRowWins(rows: seq<(string, string)>, i: nat)
    requires i < |rows|
    requires forall j :: i < j < |rows| ==> rows[j].0 != rows[i].0
    ensures rows[i].0 in SectionMap(rows) && SectionMap(rows)[rows[i].0] == rows[i].1
  {
    if i < |rows| - 1 {
      var init := rows[..|rows| - 1];
      LastRowWins(init, i);
    }
  }

  function AsText(m: map<string, string>): (t: map<string, Value>)
    ensures t.Keys == m.Keys
    ensures forall k :: k in m ==> t[k] == Text(m[k])
  {
    map k | k in m :: Text(m[k])
  }

  /** The sections the endpoint rewrites or adds; every other section is passed through. */
  const Rewritten: set<string> :=
    {"prep_time", "cook_time", "total_time", "ingredients", "directions", "tags", "excerpt", "id"}

  /** Both times are stored and read as integers. */
  predicate TimesParse(m: map<string, string>)
  {
    && "prep_time" in m && ParseInt(m["prep_time"]).Some?
    && "cook_time" in m && ParseInt(m["cook_time"]).Some?
  }

  /** The three packed list sections are stored. */
  predicate ListsPresent(m: map<string, string>)
  {
    "ingredients" in m && "directions" in m && "tags" in m
  }

  /** When the endpoint answers rather than raising. */
  predicate Assemblable(recipe: Option<RecipeKey>, m: map<string, string>)
  {
    TimesParse(m) && ListsPresent(m) && recipe.Some?
  }

  /** What the assembled recipe holds, given the recipe's own columns and its sections. */
  predicate IsFullRecipe(d: Response, key: RecipeKey, m: map<string, string>)
    requires Assemblable(Some(key), m)
  {
    var prep := ParseInt(m["prep_time"]).value;
    var cook := ParseInt(m["cook_time"]).value;
    && d.Keys == m.Keys + {"total_time", "excerpt", "id"}
    && d["prep_time"] == Int(prep)
    && d["cook_time"] == Int(cook)
    && d["total_time"] == Int(prep + cook)
    && d["ingredients"] == Pieces(Split(m["ingredients"], ','))
    && d["directions"] == Pieces(Split(m["directions"], '|'))
    && d["tags"] == Pieces(Split(m["tags"], ','))
    && d["excerpt"] == Text(key.excerpt)
    && d["id"] == Ident(key.id)
    && (forall k :: k in m && k !in Rewritten ==> d[k] == Text(m[k]))
  }

  /** `{row[0]: row[1] for row in rows}`, built one row at a time. */
  method CollectSections(rows: seq<(string, string)>) returns (full: map<string, Value>)
    ensures full == AsText(SectionMap(rows))
  {
    full := map[];
    for i := 0 to |rows|
      invariant full == AsText(SectionMap(rows[..i]))
    {
      assert rows[..i + 1][..i] == rows[..i];
      full := full[rows[i].0 := Text(rows[i].1)];
    }
    assert rows[..|rows|] == rows;
  }

  /** The collected sections with both times parsed and their sum added. */
  function WithTimes(m: map<string, string>): Response
    requires TimesParse(m)
  {
    var prep := ParseInt(m["prep_time"]).value;
    var cook := ParseInt(m["cook_time"]).value;
    AsText(m)["prep_time" := Int(prep)]["cook_time" := Int(cook)]["total_time" := Int(prep + cook)]
  }

  /** ... and then the three packed sections split. */
  function WithLists(m: map<string, string>): Response
    requires TimesParse(m) && ListsPresent(m)
  {
    WithTimes(m)
      ["ingredients" := Pieces(Split(m["ingredients"], ','))]
      ["directions" := Pieces(Split(m["directions"], '|'))]
      ["tags" := Pieces(Split(m["tags"], ','))]
  }

  /** The two `int(...)` conversions and the sum. */
  method ReadTimes(full: Response, ghost m: map<string, string>) returns (result: Result<Response, Error>)
    requires full == AsText(m)
    ensures result.Failure? ==> result.error == FetchRecipeError
    ensures result.Success? <==> TimesParse(m)
    ensures result.Success? ==> result.value == WithTimes(m)
  {
    if "prep_time" !in full {
      return Failure(FetchRecipeError);
    }
    var prep := ParseInt(full["prep_time"].s);
    if prep.None? {
      return Failure(FetchRecipeError);
    }
    var d := full["prep_time" := Int(prep.value)];
    if "cook_time" !in d {
      return Failure(FetchRecipeError);
    }
    assert d["cook_time"] == Text(m["cook_time"]);
    var cook := ParseInt(d["cook_time"].s);
    if cook.None? {
      return Failure(FetchRecipeError);
    }
    d := d["cook_time" := Int(cook.value)];
    d := d["total_time" := Int(prep.value + cook.value)];
    return Success(d);
  }

  /** The three `split` calls. */
  method SplitLists(full: Response, ghost m: map<string, string>) returns (result: Result<Response, Error>)
    requires TimesParse(m) && full == WithTimes(m)
    ensures result.Failure? ==> result.error == FetchRecipeError
    ensures result.Success? <==> ListsPresent(m)
    ensures result.Success? ==> result.value == WithLists(m)
  {
    if "ingredients" !in full {
      return Failure(FetchRecipeError);
    }
    assert full["ingredients"] == Text(m["ingredients"]);
    var d := full["ingredients" := Pieces(Split(full["ingredients"].s, ','))];
    if "directions" !in d {
      return Failure(FetchRecipeError);
    }
    assert d["directions"] == Text(m["directions"]);
    d := d["directions" := Pieces(Split(d["directions"].s, '|'))];
    if "tags" !in d {
      return Failure(FetchRecipeError);
    }
    assert d["tags"] == Text(m["tags"]);
    d := d["tags" := Pieces(Split(d["tags"].s, ','))];
    return Success(d);
  }

  /** The dictionary once every rewrite has been applied to the collected sections. */
  lemma RewrittenIsFull(d: Response, key: RecipeKey, m: map<string, string>)
    requires Assemblable(Some(key), m)
    requires d == WithLists(m)["excerpt" := Text(key.excerpt)]["id" := Ident(key.id)]
    ensures IsFullRecipe(d, key, m)
  {
    RewrittenKeys(d, key, m);
    RewrittenPassThrough(d, key, m);
  }

  lemma RewrittenKeys(d: Response, key: RecipeKey, m: map<string, string>)
    requires Assemblable(Some(key), m)
    requires d == WithLists(m)["excerpt" := Text(key.excerpt)]["id" := Ident(key.id)]
    ensures d.Keys == m.Keys + {"total_time", "excerpt", "id"}
  {
  }

  lemma RewrittenPassThrough(d: Response, key: RecipeKey, m: map<string, string>)
    requires Assemblable(Some(key), m)
    requires d == WithLists(m)["excerpt" := Text(key.excerpt)]["id" := Ident(key.id)]
    ensures forall k :: k in m && k !in Rewritten ==> d[k] == Text(m[k])
  {
  }

  /**
   * The body of the detail endpoint once both queries have run: fold the
   * rows into a dictionary, then rewrite its entries one by one. Any missing
   * section, unparsable time or missing recipe raises the one 500 error.
   */
  method AssembleRecipe(recipe: Option<RecipeKey>, rows: seq<(string, string)>)
    returns (result: Result<Response, Error>)
    ensures result.Failure? ==> result.error == FetchRecipeError
    ensures result.Success? <==> Assemblable(recipe, SectionMap(rows))
    ensures result.Success? ==> IsFullRecipe(result.value, recipe.value, SectionMap(rows))
  {
    ghost var m := SectionMap(rows);
    var full := CollectSections(rows);
    var timed := ReadTimes(full, m);
    if timed.Failure? {
      return timed;
    }
    var listed := SplitLists(timed.value, m);
    if listed.Failure? {
      return listed;
    }
    if recipe.None? {
      return Failure(FetchRecipeError);
    }
    full := listed.value;
    full := full["excerpt" := Text(recipe.value.excerpt)];
    full := full["id" := Ident(recipe.value.id)];
    RewrittenIsFull(full, recipe.value, m);
    return Success(full);
  }

  /** `GET /recipe/{slug}`. */
  method GetRecipeFromSlug(recipes: seq<Recipe>, contents: seq<RecipeContent>, slug: string)
    returns (result: Result<Response, Error>)
    ensures result.Failure? ==> result.error == FetchRecipeError
    ensures (forall i :: 0 <= i < |recipes| ==> recipes[i].slug != slug) ==> result.Failure?
    ensures result.Success? <==>
      Assemblable(FirstBySlug(recipes, slug), SectionMap(ContentForSlug(recipes, contents, slug)))
    ensures result.Success? ==>
      IsFullRecipe(result.value, FirstBySlug(recipes, slug).value,
        SectionMap(ContentForSlug(recipes, contents, slug)))
  {
    var recipe := FirstBySlug(recipes, slug);
    var rows := ContentForSlug(recipes, contents, slug);
    result := AssembleRecipe(recipe, rows);
  }

  /**
   * The lists in an assembled recipe are the stored packed strings split
   * apart: no piece holds the separator, there is one piece more than there
   * are separators, and joining them back gives the stored string.
   */
  lemma FullRecipePackedFields(d: Response, key: RecipeKey, m: map<string, string>)
    requires Assemblable(Some(key), m)
    requires IsFullRecipe(d, key, m)
    ensures d["ingredients"].Pieces? && Join(d["ingredients"].items, ',') == m["ingredients"]
    ensures d["directions"].Pieces? && Join(d["directions"].items, '|') == m["directions"]
    ensures d["tags"].Pieces? && Join(d["tags"].items, ',') == m["tags"]
    ensures |d["ingredients"].items| == Count(m["ingredients"], ',') + 1
    ensures |d["directions"].items| == Count(m["directions"], '|') + 1
    ensures |d["tags"].items| == Count(m["tags"], ',') + 1
    ensures forall i :: 0 <= i < |d["ingredients"].items| ==> ',' !in d["ingredients"].items[i]
    ensures forall i :: 0 <= i < |d["directions"].items| ==> '|' !in d["directions"].items[i]
    ensures forall i :: 0 <= i < |d["tags"].items| ==> ',' !in d["tags"].items[i]
  {
    PackedField(m["ingredients"], ',');
    PackedField(m["directions"], '|');
    PackedField(m["tags"], ',');
  }

  // ---------------------------------------------------------------------
  // GET /recipe/tag/{tag}
  // ---------------------------------------------------------------------

  function TagRowOf(p: (Recipe, RecipeContent)): RecipeTag
  {
    RecipeTag(p.0.title, p.0.slug, p.0.featuredImage, p.0.excerpt, p.1.recipeId)
  }

  function TagRows(pairs: seq<(Recipe, RecipeContent)>): (rows: seq<RecipeTag>)
    ensures |rows| == |pairs|
    ensures forall i :: 0 <= i < |pairs| ==> rows[i] == TagRowOf(pairs[i])
  {
    if pairs == [] then [] else [TagRowOf(pairs[0])] + TagRows(pairs[1..])
  }

  /** The filter of the tag lookup: a tags section whose content is ILIKE `%tag%`. */
  predicate IsTagHit(c: RecipeContent, tag: string)
  {
    c.section == "tags" && TagMatches(c.content, tag)
  }

  /** The filter on a joined row. */
  function TagHit(tag: string): ((Recipe, RecipeContent)) -> bool
  {
    (p: (Recipe, RecipeContent)) => IsTagHit(p.1, tag)
  }

  /** `GET /recipe/tag/{tag}`: one row per (recipe, content row) pair that passes the filter. */
  function GetRecipesFromTag(recipes: seq<Recipe>, contents: seq<RecipeContent>, tag: string): seq<RecipeTag>
  {
    TagRows(Select(InnerJoin(recipes, contents), TagHit(tag)))
  }

  /**
   * A row is in the answer exactly when it comes from a recipe and one of its
   * content rows whose section is `tags` and whose content matches the tag;
   * rows of any other section never appear.
   */
  lemma TagLookupRows(recipes: seq<Recipe>, contents: seq<RecipeContent>, tag: string)
    ensures forall row :: row in GetRecipesFromTag(recipes, contents, tag) <==>
      exists r, c :: r in recipes && c in contents && c.recipeId == r.id
        && c.section == "tags" && TagMatches(c.content, tag)
        && row == TagRowOf((r, c))
  {
    var pairs := Select(InnerJoin(recipes, contents), TagHit(tag));
    var rows := TagRows(pairs);
    assert forall row :: row in rows ==> exists p :: p in pairs && row == TagRowOf(p);
    assert forall p :: p in pairs ==> TagRowOf(p) in rows;
  }

  /** A recipe whose columns, and whose id as `recipe_id`, make up the tag row. */
  predicate RecipeMakesRow(r: Recipe, row: RecipeTag)
  {
    && r.title == row.title && r.slug == row.slug && r.featuredImage == row.featuredImage
    && r.excerpt == row.excerpt && r.id == row.recipeId
  }

  lemma TagRowsAppend(a: seq<(Recipe, RecipeContent)>, b: seq<(Recipe, RecipeContent)>)
    ensures TagRows(a + b) == TagRows(a) + TagRows(b)
  {
    var whole, parts := TagRows(a + b), TagRows(a) + TagRows(b);
    forall i | 0 <= i < |whole|
      ensures whole[i] == parts[i]
    {
      if i < |a| {
        assert (a + b)[i] == a[i];
      } else {
        assert (a + b)[i] == b[i - |a|];
      }
    }
  }

  /** The recipes whose columns, and whose id as `recipe_id`, make up `row`. */
  function MakesRow(row: RecipeTag): Recipe -> bool
  {
    (r: Recipe) => RecipeMakesRow(r, row)
  }

  /** The matching tags rows that name the recipe `id`. */
  function OwnTagHit(id: Uuid, tag: string): RecipeContent -> bool
  {
    (c: RecipeContent) => c.recipeId == id && IsTagHit(c, tag)
  }

  /** The lookup over a recipe table: the first recipe's rows, then the rest's. */
  lemma TagLookupCons(recipes: seq<Recipe>, contents: seq<RecipeContent>, tag: string)
    requires recipes != []
    ensures GetRecipesFromTag(recipes, contents, tag) ==
      TagRows(Select(RowsOf(recipes[0], contents), TagHit(tag))) + GetRecipesFromTag(recipes[1..], contents, tag)
  {
    var mine, others := RowsOf(recipes[0], contents), InnerJoin(recipes[1..], contents);
    assert InnerJoin(recipes, contents) == mine + others;
    SelectAppend(mine, others, TagHit(tag));
    TagRowsAppend(Select(mine, TagHit(tag)), Select(others, TagHit(tag)));
  }

  /** The tag rows of one recipe over a content table: the first row's, then the rest's. */
  lemma TagRowsOfCons(h: Recipe, contents: seq<RecipeContent>, tag: string)
    requires contents != []
    ensures TagRows(Select(RowsOf(h, contents), TagHit(tag))) ==
      (if OwnTagHit(h.id, tag)(contents[0]) then [TagRowOf((h, contents[0]))] else [])
      + TagRows(Select(RowsOf(h, contents[1..]), TagHit(tag)))
  {
    var c0, rest := contents[0], contents[1..];
    var first: seq<(Recipe, RecipeContent)> := if c0.recipeId == h.id then [(h, c0)] else [];
    assert RowsOf(h, contents) == first + RowsOf(h, rest);
    SelectAppend(first, RowsOf(h, rest), TagHit(tag));
    TagRowsAppend(Select(first, TagHit(tag)), Select(RowsOf(h, rest), TagHit(tag)));
    if OwnTagHit(h.id, tag)(c0) {
      assert Select(first, TagHit(tag)) == [(h, c0)];
    } else {
      assert Select(first, TagHit(tag)) == [];
    }
  }

  /** The tag rows one recipe contributes: one per tags row of its own that matches. */
  lemma {:induction false} TagRowsOfOneRecipe(h: Recipe, contents: seq<RecipeContent>, tag: string, row: RecipeTag)
    ensures multiset(TagRows(Select(RowsOf(h, contents), TagHit(tag))))[row] ==
      if RecipeMakesRow(h, row) then |Select(contents, OwnTagHit(row.recipeId, tag))| else 0
  {
    if contents != [] {
      var c0, rest := contents[0], contents[1..];
      TagRowsOfOneRecipe(h, rest, tag, row);
      TagRowsOfCons(h, contents, tag);
      var hit := OwnTagHit(h.id, tag)(c0);
      var x: seq<RecipeTag> := if hit then [TagRowOf((h, c0))] else [];
      var later := TagRows(Select(RowsOf(h, rest), TagHit(tag)));
      assert multiset(x + later)[row] == multiset(x)[row] + multiset(later)[row];
      var own := OwnTagHit(row.recipeId, tag);
      var y: seq<RecipeContent> := if own(c0) then [c0] else [];
      assert Select(contents, own) == y + Select(rest, own);
      if hit {
        assert TagRowOf((h, c0)) == row <==> RecipeMakesRow(h, row);
        assert RecipeMakesRow(h, row) ==> own(c0);
      } else {
        assert RecipeMakesRow(h, row) ==> !own(c0);
      }
    }
  }

  /**
   * The tag lookup returns each row as often as there are (recipe, content
   * row) pairs that produce it: the number of recipes with the row's columns
   * and id, times the number of matching tags rows with that `recipe_id`.
   * So two matching tags rows of one recipe give two identical rows.
   */
  lemma {:induction false} TagLookupCount(recipes: seq<Recipe>, contents: seq<RecipeContent>, tag: string, row: RecipeTag)
    ensures multiset(GetRecipesFromTag(recipes, contents, tag))[row] ==
      |Select(recipes, MakesRow(row))| * |Select(contents, OwnTagHit(row.recipeId, tag))|
  {
    if recipes != [] {
      var h, rest := recipes[0], recipes[1..];
      TagLookupCount(rest, contents, tag, row);
      TagRowsOfOneRecipe(h, contents, tag, row);
      TagLookupCons(recipes, contents, tag);
      var mine := TagRows(Select(RowsOf(h, contents), TagHit(tag)));
      var others := GetRecipesFromTag(rest, contents, tag);
      assert multiset(mine + others)[row] == multiset(mine)[row] + multiset(others)[row];
      var n, c := |Select(rest, MakesRow(row))|, |Select(contents, OwnTagHit(row.recipeId, tag))|;
      var first: seq<Recipe> := if MakesRow(row)(h) then [h] else [];
      assert Select(recipes, MakesRow(row)) == first + Select(rest, MakesRow(row));
      if MakesRow(row)(h) {
        assert |Select(recipes, MakesRow(row))| == n + 1;
        MulSucc(n, c);
      } else {
        assert |Select(recipes, MakesRow(row))| == n;
      }
    }
  }

  /**
   * For a tag without `%`, `_` or a backslash the lookup is a case-insensitive
   * substring filter on the tags sections (so `egg` finds `Eggplant`).
   */
  lemma TagLookupPlain(recipes: seq<Recipe>, contents: seq<RecipeContent>, tag: string)
    requires IsPlain(tag)
    ensures GetRecipesFromTag(recipes, contents, tag) ==
      TagRows(Select(InnerJoin(recipes, contents), (p: (Recipe, RecipeContent)) =>
        p.1.section == "tags" && IsSubstring(Lower(tag), Lower(p.1.content))))
  {
    var pairs := InnerJoin(recipes, contents);
    forall p | p in pairs
      ensures IsTagHit(p.1, tag) == (p.1.section == "tags" && IsSubstring(Lower(tag), Lower(p.1.content)))
    {
      TagMatchesPlain(p.1.content, tag);
    }
    SelectCongruent(pairs, TagHit(tag),
      (p: (Recipe, RecipeContent)) => p.1.section == "tags" && IsSubstring(Lower(tag), Lower(p.1.content)));
  }

  /** The empty tag returns one row for every tags section of every recipe. */
  lemma TagLookupEmpty(recipes: seq<Recipe>, contents: seq<RecipeContent>)
    ensures GetRecipesFromTag(recipes, contents, "") ==
      TagRows(Select(InnerJoin(recipes, contents), (p: (Recipe, RecipeContent)) => p.1.section == "tags"))
  {
    var pairs := InnerJoin(recipes, contents);
    forall p | p in pairs
      ensures IsTagHit(p.1, "") == (p.1.section == "tags")
    {
      EmptyTagMatchesAll(p.1.content);
    }
    SelectCongruent(pairs, TagHit(""),
      (p: (Recipe, RecipeContent)) => p.1.section == "tags");
  }

  /** The tag `%` is spliced in unescaped and so returns the same rows as the empty tag. */
  lemma TagLookupPercent(recipes: seq<Recipe>, contents: seq<RecipeContent>)
    ensures GetRecipesFromTag(recipes, contents, "%") == GetRecipesFromTag(recipes, contents, "")
  {
    var pairs := InnerJoin(recipes, contents);
    forall p | p in pairs
      ensures IsTagHit(p.1, "%") == IsTagHit(p.1, "")
    {
      PercentTagMatchesAll(p.1.content);
      EmptyTagMatchesAll(p.1.content);
    }
    SelectCongruent(pairs, (p: (Recipe, RecipeContent)) => IsTagHit(p.1, "%"),
      (p: (Recipe, RecipeContent)) => IsTagHit(p.1, ""));
  }
}
