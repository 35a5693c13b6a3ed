/**
 * The two persisted records of the cooking application. Both are plain
 * values: two recipes are equal exactly when every field is equal, which is
 * the equality Lombok's `@Data` generates for the Java classes.
 */
module Entities {

  /** A registered user; recipes refer to one of these as their author. */
  datatype User = User(id: int, username: string, password: string)

  /**
   * A shared recipe. The author is kept as the id of a `User` rather than as
   * an embedded object, so a recipe never owns its author.
   */
  datatype Recipe = Recipe(
    id: int,
    keywords: seq<string>,
    ingredients: seq<string>,
    steps: seq<string>,
    authorId: int)
}
