/**
 * A worked example of the detail endpoint: the five content rows of a
 * pancake recipe, and what `GET /recipe/pancakes` answers for them.
 */
module RecipeScenario {
  import opened Wrappers
  import opened PyStr
  import opened PyInt
  import opened Recipes

  /** The (section, content) rows the content query returns for `pancakes`. */
  const PancakeSectionRows: seq<(string, string)> := [
    ("prep_time", "5"),
    ("cook_time", "10"),
    ("ingredients", "egg,milk,flour"),
    ("directions", "step1|step2"),
    ("tags", "breakfast,quick")]

  /** The sections the detail endpoint collects for `pancakes`. */
  lemma PancakeSections()
    ensures var m := SectionMap(PancakeSectionRows);
      && "prep_time" in m && m["prep_time"] == "5"
      && "cook_time" in m && m["cook_time"] == "10"
      && "ingredients" in m && m["ingredients"] == "egg,milk,flour"
      && "directions" in m && m["directions"] == "step1|step2"
      && "tags" in m && m["tags"] == "breakfast,quick"
  {
    var rows := PancakeSectionRows;
    LastRowWins(rows, 0);
    LastRowWins(rows, 1);
    LastRowWins(rows, 2);
    LastRowWins(rows, 3);
    LastRowWins(rows, 4);
  }

  /** The stored times read back as 5 and 10. */
  lemma PancakeTimes()
    ensures ParseInt("5") == Some(5) && ParseInt("10") == Some(10)
  {
  }

  /** The packed sections split into their pieces. */
  lemma PancakeIngredients()
    ensures Split("egg,milk,flour", ',') == ["egg", "milk", "flour"]
  {
    assert Join(["egg", "milk", "flour"], ',') == "egg,milk,flour";
    SplitJoin(["egg", "milk", "flour"], ',');
  }

  lemma PancakeDirections()
    ensures Split("step1|step2", '|') == ["step1", "step2"]
  {
    assert Join(["step1", "step2"], '|') == "step1|step2";
    SplitJoin(["step1", "step2"], '|');
  }

  lemma PancakeTags()
    ensures Split("breakfast,quick", ',') == ["breakfast", "quick"]
  {
    assert Join(["breakfast", "quick"], ',') == "breakfast,quick";
    SplitJoin(["breakfast", "quick"], ',');
  }

  /** With the pancake rows and any recipe behind the slug, the detail endpoint answers. */
  lemma PancakesAssemble(key: RecipeKey)
    ensures Assemblable(Some(key), SectionMap(PancakeSectionRows))
  {
    PancakeSections();
    PancakeTimes();
  }

  /**
   * Its answer: total_time 15 and the three packed sections split into
   * exactly the stored pieces.
   */
  lemma PancakesDetail(d: Response, key: RecipeKey)
    requires Assemblable(Some(key), SectionMap(PancakeSectionRows))
    requires IsFullRecipe(d, key, SectionMap(PancakeSectionRows))
    ensures d["prep_time"] == Int(5) && d["cook_time"] == Int(10)
    ensures d["total_time"] == Int(15)
    ensures d["ingredients"] == Pieces(["egg", "milk", "flour"])
    ensures d["directions"] == Pieces(["step1", "step2"])
    ensures d["tags"] == Pieces(["breakfast", "quick"])
  {
    PancakeSections();
    PancakeTimes();
    PancakeIngredients();
    PancakeDirections();
    PancakeTags();
  }
}
