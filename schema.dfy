/**
 * The stored rows the routers read, as plain records.
 *
 * `Recipe` keeps the columns of the `recipes` table that the routers read or
 * that matter for what they return (`activeRecipe` is there to show that no query
 * filters on it). `RecipeContent` has the key/value shape the router queries:
 * one row per section of a recipe, naming its owner by `recipe_id`.
 */
module Schema {

  /** A recipe identifier; the database generates UUIDs, here it is an opaque string. */
  type Uuid = string

  datatype Recipe = Recipe(
    id: Uuid,
    title: string,
    excerpt: string,
    featuredImage: string,
    slug: string,
    activeRecipe: bool)

  datatype RecipeContent = RecipeContent(recipeId: Uuid, section: string, content: string)
}
