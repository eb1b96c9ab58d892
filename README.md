# Recipe router of hungry-baby-api, modelled in Dafny

hungry-baby-api is a small FastAPI service that serves recipes out of a
PostgreSQL database. All of its logic sits in the recipe router, which has
three read endpoints:

- `GET /recipes/all` lists every recipe as `{title, excerpt, featured_image, slug}`.
- `GET /recipe/{slug}` builds the full view of one recipe. The recipe's content
  is stored as `(section, content)` rows. The endpoint folds them into a
  dictionary, where the last row for a section wins. It then rewrites that
  dictionary entry by entry:
  - it parses `prep_time` and `cook_time` with `int` and adds `total_time`;
  - it splits `ingredients` on `,`, `directions` on `|` and `tags` on `,`;
  - it sets `excerpt` and `id` from the first recipe row with the slug.

  Any failure gives one HTTP 500 error, "Could not fetch recipe".
- `GET /recipe/tag/{tag}` joins recipes with their content rows. It keeps the
  rows whose section is `tags` and whose content is `ILIKE '%' || tag || '%'`.

The model has one module per concern:

| file | module | what it holds |
|---|---|---|
| `wrappers.dfy` | `Wrappers` | `Option` and `Result` |
| `schema.dfy` | `Schema` | the `Recipe` and `RecipeContent` rows |
| `query.dfy` | `Query` | the inner join and the `WHERE` filter over in-memory tables |
| `pystr.dfy` | `PyStr` | Python `str.split(sep)` and `sep.join` |
| `pyint.dfy` | `PyInt` | Python `int(s)` on a string and `str(n)` |
| `sqllike.dfy` | `SqlLike` | PostgreSQL `ILIKE`: the pattern's tokens, matching, ASCII lowering |
| `recipes.dfy` | `Recipes` | the three endpoints |
| `scenario.dfy` | `RecipeScenario` | a worked pancake example of the detail endpoint |

The database is replaced by two sequences of rows, and each query becomes a
function of them. The detail endpoint changes a dictionary step by step, so
it is modelled imperatively. `Recipes.AssembleRecipe` reassigns a local
`map<string, Value>` in the order the source does. Its contract ties the
result to two predicates:

- `Assemblable` says when the endpoint answers;
- `IsFullRecipe` says what the answer holds.

The listing and the tag lookup are pure query expressions, so they are
modelled as functions.

### Behaviour worth noting

- **No active filter.** No query in the router filters on `active_recipe`
  (`database/models.py:31`), so inactive recipes are listed and served like
  any other. `Recipes.ListingIgnoresActive` proves that the listing does not
  depend on that flag.
- **Unknown slug.** A slug that no recipe has gives the 500 error, not an
  empty answer. The dictionary holds no sections, so `full_recipe["prep_time"]`
  raises; `recipe` is `None` as well, so `recipe.excerpt` would raise too.
- **Tag lookup columns.** The tag lookup selects title, slug, featured image,
  excerpt and recipe id, and nothing else; the matching tags text is not
  part of the answer.
- **Tag matching.** The tag is spliced into a LIKE pattern without escaping.
  The model therefore implements LIKE fully and proves two things:
  - for every tag without `%`, `_` or `\`, the lookup is a case-insensitive
    substring test (`Recipes.TagLookupPlain`);
  - the tags `%` and `_` act as wildcards.
- **Slugs are not unique.** `slug` is indexed but not unique
  (`database/models.py:26`). `excerpt` and `id` come from the *first* recipe
  with the slug. The content query, however, collects the sections of
  *every* recipe with that slug. The model keeps both behaviours.
- **Duplicate rows.** The tag lookup has no `DISTINCT`: a recipe with two
  matching tags rows appears twice (`Recipes.TagLookupCount`).
- **Row shape.** The router reads content as `(section, content)` rows. The
  declarative `RecipeContent` class in `database/models.py:37-52` has one
  column per field and no `section` or `content` column. The model follows
  the router.

## Model

| member | source | states |
|---|---|---|
| `Recipes.GetAllRecipes` | routers/recipes.py:56-63 | The listing has one row per recipe row, in table order. Each row is that recipe's title, excerpt, featured image and slug. Every recipe is listed, and every listed row comes from a recipe. |
| `Recipes.ListingIgnoresActive` | routers/recipes.py:58 | Changing the `active_recipe` flags of the rows does not change the listing; no filter is applied. |
| `Recipes.FirstIndex` | routers/recipes.py:71 | The index found is the first whose slug matches: no earlier row has the slug, and the row found has it (or the index is past the end). |
| `Recipes.FirstBySlug` | routers/recipes.py:71 | `.first()` gives `None` exactly when no recipe has the slug. Otherwise it gives the excerpt and id of the first recipe with the slug. |
| `Recipes.ContentForSlugRows` | routers/recipes.py:73-78 | A `(section, content)` pair is returned exactly when some recipe with the slug owns a content row with that section and content. This covers every recipe with the slug, not just the first. |
| `Recipes.ContentForSlug` | routers/recipes.py:73-78 | The content query: the `(section, content)` of every joined (recipe, content row) pair whose recipe has the slug. Its partners are `ContentForSlugRows` (which rows) and `UniqueSlugContent` (order and multiplicity). |
| `Recipes.UniqueSlugContent` | routers/recipes.py:73-78 | When exactly one recipe row has the slug, the content query returns that recipe's own content rows and nothing else, each once, in table order. This holds whatever the other recipes and their content rows are. |
| `Recipes.SectionMap` | routers/recipes.py:80 | The dictionary comprehension, folding the rows into a dictionary from first to last. Its partners are `SectionMapKeys` and `LastRowWins`. |
| `Recipes.SectionMapKeys` | routers/recipes.py:80 | The dictionary comprehension has a key exactly when some row names that section. |
| `Recipes.LastRowWins` | routers/recipes.py:80 | For a repeated section, the dictionary keeps the content of the last row that names it. |
| `Recipes.CollectSections` | routers/recipes.py:80 | The loop builds exactly the comprehension's dictionary, with every value still text. |
| `Recipes.ReadTimes` | routers/recipes.py:82-84 | Answers exactly when both `prep_time` and `cook_time` are present and parse with `int`. The result holds both integers and their sum as `total_time`. Otherwise it gives the 500 error. |
| `Recipes.SplitLists` | routers/recipes.py:85-87 | Answers exactly when `ingredients`, `directions` and `tags` are all present. Each is replaced by its split on `,`, `\|` and `,` respectively. Otherwise it gives the 500 error. |
| `Recipes.RewrittenIsFull` | routers/recipes.py:82-90 | Applying the eight rewrites to the collected sections gives a dictionary that meets the full-recipe description. |
| `Recipes.AssembleRecipe` | routers/recipes.py:80-97 | Succeeds exactly when the times parse, the three list sections are present and a recipe was found. On success the keys are the sections plus `total_time`, `excerpt` and `id`. The times are parsed and `total_time` is their sum. The lists are split. `excerpt` and `id` come from the recipe, even over a section of the same name. Every other section, such as `notes`, passes through unchanged. Any failure is the single "Could not fetch recipe" 500 error, never a partial result. |
| `Recipes.GetRecipeFromSlug` | routers/recipes.py:69-97 | The whole endpoint. An unknown slug always fails with the 500 error. Otherwise the answer is as above, built from the first matching recipe and the content rows of every recipe with the slug. |
| `Recipes.FullRecipePackedFields` | routers/recipes.py:85-87 | In an assembled recipe, no piece of a split list holds its separator. Each list has one more piece than its stored string has separators. Joining the pieces with the separator gives back the stored string. |
| `Recipes.GetRecipesFromTag` | routers/recipes.py:103-121 | The tag lookup: the five selected columns of every joined (recipe, content row) pair whose section is `tags` and whose content is ILIKE `%tag%`. Its partners are `TagLookupRows` (which rows) and `TagLookupCount` (how often each). |
| `Recipes.TagLookupRows` | routers/recipes.py:105-121 | A row is returned exactly when it comes from a recipe and one of its content rows whose section is `tags` and whose content is ILIKE `%tag%`. Rows from other sections never appear. This is membership only; `TagLookupCount` gives the counts. |
| `Recipes.TagLookupCount` | routers/recipes.py:105-121 | Each row is returned exactly as many times as there are recipes with the row's title, slug, image, excerpt and id, times the number of matching tags rows with the row's `recipe_id`. So the answer can hold duplicates: a recipe with two matching tags rows appears twice. |
| `Recipes.TagLookupPlain` | routers/recipes.py:113-119 | For a tag without `%`, `_` or `\`, the lookup is a case-insensitive substring filter on the tags sections, so `egg` finds `Eggplant`. |
| `Recipes.TagLookupEmpty` | routers/recipes.py:113-119 | The empty tag returns one row for every tags section of every recipe. |
| `Recipes.TagLookupPercent` | routers/recipes.py:117 | The tag `%` is not escaped, so it returns the same rows as the empty tag. |
| `Query.RowsOf` | routers/recipes.py:75 | The content rows paired with a recipe are exactly the rows whose `recipe_id` is its id (membership). |
| `Query.RowsOfCount` | routers/recipes.py:75 | A recipe is paired with each of its own content rows as often as that row occurs, and with no other row. |
| `Query.RowsOfOwn` | routers/recipes.py:75 | A recipe's pairs are its own content rows, one pair per row, in table order. |
| `Query.InnerJoin` | routers/recipes.py:113 | The join holds exactly the (recipe, content) pairs with `recipe_id == id` (membership; counts in `InnerJoinCount`). |
| `Query.InnerJoinCount` | routers/recipes.py:113 | A pair occurs in the join as often as its recipe occurs times as often as its content row occurs, when the two name the same id, and never otherwise. |
| `Query.Select` | routers/recipes.py:114-119 | The filter keeps exactly the rows that pass it and never adds rows (membership; counts in `SelectCount`). |
| `Query.SelectCount` | routers/recipes.py:114-119 | The filter keeps each passing row exactly as often as it occurs, and no copy of a failing row. |
| `PyStr.Split` | routers/recipes.py:85-87 | `str.split(sep)` with an explicit separator: always at least one piece. Its partners are `Join` with `JoinSplit` and `SplitJoin`, and `SplitCount`. |
| `PyStr.SplitCount` | routers/recipes.py:85-87 | `s.split(sep)` has one more piece than `s` has separators, so `"".split(",")` is `[""]`. |
| `PyStr.SplitPiecesAvoidSeparator` | routers/recipes.py:85-87 | No piece of `s.split(sep)` holds the separator. |
| `PyStr.JoinSplit` | routers/recipes.py:85-87 | `sep.join(s.split(sep)) == s`. |
| `PyStr.SplitJoin` | routers/recipes.py:85-87 | `sep.join(pieces).split(sep) == pieces` for a non-empty list of separator-free pieces. |
| `PyStr.PackedField` | routers/recipes.py:85-87 | The three guarantees above, together, for one stored string. |
| `PyInt.ParseInt` | routers/recipes.py:82-83 | `int(s)` on a string: strip whitespace, take an optional sign, read digit groups; `None` where Python raises. Its partners are `Show` (`ParseIntShow`), `ReadGroupsValue` and the rejection lemmas below. |
| `PyInt.ReadGroupsAccepts` | routers/recipes.py:82-83 | The digit reader accepts exactly digit groups: digits, with single underscores only between two digits. |
| `PyInt.ReadGroupsValue` | routers/recipes.py:82-83 | Digit groups read as the decimal number their digits spell once the underscores are removed, so leading zeros and underscores change nothing. |
| `PyInt.ParseIntLeadingZeros` | routers/recipes.py:82-83 | `int("007") == 7`. |
| `PyInt.ParseIntUnderscores` | routers/recipes.py:82-83 | `int("1_000") == 1000`. |
| `PyInt.ParseIntShowBare` | routers/recipes.py:82-83 | `int(str(n)) == n` for every integer `n`. |
| `PyInt.ParseIntShow` | routers/recipes.py:82-83 | `int` ignores surrounding whitespace: `int(w1 + str(n) + w2) == n` when `w1` and `w2` consist of the whitespace `int` strips (`str.isspace` except U+001C to U+001F). |
| `PyInt.ParseIntKeepsSeparators` | routers/recipes.py:82-83 | `int("5\x1f")` and `int("\x1c5")` raise: the separators U+001C to U+001F are not stripped. |
| `PyInt.ParseIntBlank` | routers/recipes.py:82-83 | `int` of the empty or an all-whitespace string raises. |
| `PyInt.ParseIntRejectsForeign` | routers/recipes.py:82-83 | `int` raises on any string holding a character that is not stripped whitespace, a digit, a sign or an underscore, such as U+001F in `"5\x1f"`. |
| `SqlLike.TagMatches` | routers/recipes.py:117 | `content ILIKE '%' \|\| tag \|\| '%'`, with the tag spliced in unescaped. Its partners are `TagMatchesPlain` and the wildcard lemmas below. |
| `SqlLike.TokenizeAccepts` | routers/recipes.py:117 | A pattern whose last character is not a backslash is always accepted. `'%' \|\| tag \|\| '%'` ends in `%`, so the lookup never raises a pattern error. |
| `SqlLike.MatchesPrefix` | routers/recipes.py:117 | A literal word followed by `%` matches exactly the strings that start with that word. |
| `SqlLike.MatchesLeadingRun` | routers/recipes.py:117 | A leading `%` matches when the rest of the pattern matches some suffix. |
| `SqlLike.TagMatchesPlain` | routers/recipes.py:117 | For a tag without `%`, `_` or `\`, `content ILIKE '%tag%'` holds exactly when the lowered tag occurs in the lowered content. |
| `SqlLike.EmptyTagMatchesAll` | routers/recipes.py:117 | The empty tag matches every content string. |
| `SqlLike.PercentTagMatchesAll` | routers/recipes.py:117 | The tag `%` matches every content string. |
| `SqlLike.UnderscoreTagMatchesNonEmpty` | routers/recipes.py:117 | The tag `_` matches exactly the non-empty content strings. |
| `RecipeScenario.PancakesAssemble` | routers/recipes.py:80-87 | With the rows prep_time 5, cook_time 10, ingredients `egg,milk,flour`, directions `step1\|step2` and tags `breakfast,quick`, the endpoint answers. |
| `RecipeScenario.PancakesDetail` | routers/recipes.py:82-87 | For those rows the answer has prep_time 5, cook_time 10 and total_time 15. It has ingredients `["egg", "milk", "flour"]`, directions `["step1", "step2"]` and tags `["breakfast", "quick"]`. |

## Left out

- Database faults: the `except Exception` branches of the listing and the tag
  lookup (routers/recipes.py:59-63, 122-126) are not modelled. Their queries
  are total functions over in-memory rows and cannot fail. The detail
  endpoint's 500 error is modelled for every failure its own code can raise.
- SQLAlchemy sessions, `Depends(get_db)` and query execution are replaced by
  sequences of rows.
- Row order: no query has an `ORDER BY`. The model fixes one order, recipes
  in table order and each recipe's content rows in table order.
- `Recipes.ContentForSlugRows`: states which rows are returned, not how often;
  counts follow from `Query.InnerJoinCount` and `Query.SelectCount`, and
  `Recipes.UniqueSlugContent` gives the exact rows for a unique slug.
- FastAPI/pydantic response-model validation and coercion are not modelled.
  This includes dropping keys outside the response model and the `notes: str`
  field it requires. It runs in library code outside the endpoint.
- `PyInt.ParseInt`: does not accept the non-ASCII Unicode decimal digits that
  Python's `int` also reads, and does not model CPython's default limit of
  4300 digits on `int`/`str` conversion (`sys.int_max_str_digits`), beyond
  which `int` raises `ValueError`; the model reads strings of any length.
  Whitespace stripping follows what CPython's `int` strips: `str.isspace`
  except U+001C to U+001F.
- `SqlLike.TagMatches`: folds only ASCII letters. PostgreSQL's `ILIKE`
  follows the database's locale.
- Nullable content: a `NULL` section or content is not modelled; both
  columns are strings.
- Columns the router never reads are not modelled: author, primary tag,
  dates, nutritional value, the full-text vector and plugged products.
- `routers/index.py` (a static HTML page) and `app/main.py` (environment,
  CORS and schema creation) are not part of this model. They are
  configuration and hold no logic.
- UUIDs are opaque strings; their generation is not modelled.
