/**
 * The two query building blocks the routers use, over in-memory tables:
 * an inner join of recipes with their content rows, and a filter.
 *
 * No query has an ORDER BY, so the database may return rows in any order;
 * the model fixes one: recipes in table order and, for each, its content rows
 * in table order.
 */
module Query {
  import opened Schema

  /** The content rows owned by `r`, each paired with `r`. */
  function RowsOf(r: Recipe, contents: seq<RecipeContent>): (pairs: seq<(Recipe, RecipeContent)>)
    ensures forall p :: p in pairs <==> p.0 == r && p.1 in contents && p.1.recipeId == r.id
  {
    if contents == [] then []
    else
      (if contents[0].recipeId == r.id then [(r, contents[0])] else [])
      + RowsOf(r, contents[1..])
  }

  /**
   * `JOIN recipe_content ON recipe_content.recipe_id = recipes.id`: one pair
   * for every recipe row and every content row that name the same id, so a
   * pair occurs as often as its recipe occurs times as often as its content
   * row occurs.
   */
  function InnerJoin(recipes: seq<Recipe>, contents: seq<RecipeContent>): (pairs: seq<(Recipe, RecipeContent)>)
    ensures forall p :: p in pairs <==> p.0 in recipes && p.1 in contents && p.1.recipeId == p.0.id
  {
    if recipes == [] then []
    else RowsOf(recipes[0], contents) + InnerJoin(recipes[1..], contents)
  }

  /** `WHERE keep(row)`: every row that passes, as often as it occurs, in order. */
  function Select<T(!new)>(xs: seq<T>, keep: T -> bool): (kept: seq<T>)
    ensures |kept| <= |xs|
    ensures forall x :: x in kept <==> x in xs && keep(x)
  {
    if xs == [] then []
    else (if keep(xs[0]) then [xs[0]] else []) + Select(xs[1..], keep)
  }

  /** Two filters that agree on every row select the same rows. */
  lemma {:induction false} SelectCongruent<T(!new)>(xs: seq<T>, f: T -> bool, g: T -> bool)
    requires forall x :: x in xs ==> f(x) == g(x)
    ensures Select(xs, f) == Select(xs, g)
  {
    if xs != [] {
      SelectCongruent(xs[1..], f, g);
    }
  }

  /** The filter `recipe_content.recipe_id = r.id`. */
  function OwnedBy(r: Recipe): RecipeContent -> bool
  {
    (c: RecipeContent) => c.recipeId == r.id
  }

  /** `RowsOf` pairs `r` with exactly its own content rows, in table order. */
  lemma {:induction false} RowsOfOwn(r: Recipe, contents: seq<RecipeContent>)
    ensures var own := Select(contents, OwnedBy(r));
      && |RowsOf(r, contents)| == |own|
      && forall i :: 0 <= i < |own| ==> RowsOf(r, contents)[i] == (r, own[i])
  {
    if contents != [] {
      var c, tail := contents[0], contents[1..];
      RowsOfOwn(r, tail);
      var own, rest := Select(contents, OwnedBy(r)), Select(tail, OwnedBy(r));
      var rows, later := RowsOf(r, contents), RowsOf(r, tail);
      if c.recipeId == r.id {
        assert own == [c] + rest;
        assert rows == [(r, c)] + later;
        forall i | 0 <= i < |own|
          ensures rows[i] == (r, own[i])
        {
          if i > 0 {
            assert rows[i] == later[i - 1] && own[i] == rest[i - 1];
          }
        }
      } else {
        assert own == [] + rest;
        assert rows == [] + later;
      }
    }
  }

  /** A filter every row passes keeps all of them. */
  lemma {:induction false} SelectAll<T(!new)>(xs: seq<T>, keep: T -> bool)
    requires forall i :: 0 <= i < |xs| ==> keep(xs[i])
    ensures Select(xs, keep) == xs
  {
    if xs != [] {
      SelectAll(xs[1..], keep);
      assert [xs[0]] + xs[1..] == xs;
    }
  }

  /** `RowsOf` pairs `r` with each of its content rows as often as that row occurs. */
  lemma {:induction false} RowsOfCount(r: Recipe, contents: seq<RecipeContent>, p: (Recipe, RecipeContent))
    ensures multiset(RowsOf(r, contents))[p] ==
      if p.0 == r && p.1.recipeId == r.id then multiset(contents)[p.1] else 0
  {
    if contents != [] {
      RowsOfCount(r, contents[1..], p);
      assert contents == [contents[0]] + contents[1..];
    }
  }

  /**
   * The join yields a pair as often as its recipe occurs times as often as
   * its content row occurs, when the two name the same id, and never otherwise.
   */
  lemma {:induction false} InnerJoinCount(recipes: seq<Recipe>, contents: seq<RecipeContent>, p: (Recipe, RecipeContent))
    ensures multiset(InnerJoin(recipes, contents))[p] ==
      if p.1.recipeId == p.0.id then multiset(recipes)[p.0] * multiset(contents)[p.1] else 0
  {
    if recipes != [] {
      var head, rest := recipes[0], recipes[1..];
      InnerJoinCount(rest, contents, p);
      RowsOfCount(head, contents, p);
      var mine, others := RowsOf(head, contents), InnerJoin(rest, contents);
      assert InnerJoin(recipes, contents) == mine + others;
      assert multiset(mine + others)[p] == multiset(mine)[p] + multiset(others)[p];
      CountCons(recipes, p.0);
      if p.1.recipeId == p.0.id && head == p.0 {
        MulSucc(multiset(rest)[p.0], multiset(contents)[p.1]);
      }
    }
  }

  /** How often `x` occurs in a non-empty sequence: in its head, then in its tail. */
  lemma CountCons<T>(xs: seq<T>, x: T)
    requires xs != []
    ensures multiset(xs)[x] == (if xs[0] == x then 1 else 0) + multiset(xs[1..])[x]
  {
    assert xs == [xs[0]] + xs[1..];
  }

  lemma MulSucc(n: nat, c: nat)
    ensures (n + 1) * c == n * c + c
  {
  }

  /** The filter keeps each passing row as often as it occurs, and drops every other row. */
  lemma {:induction false} SelectCount<T(!new)>(xs: seq<T>, keep: T -> bool, x: T)
    ensures multiset(Select(xs, keep))[x] == if keep(x) then multiset(xs)[x] else 0
  {
    if xs != [] {
      SelectCount(xs[1..], keep, x);
      assert xs == [xs[0]] + xs[1..];
    }
  }

  /** Filtering a concatenation filters each part. */
  lemma {:induction false} SelectAppend<T(!new)>(xs: seq<T>, ys: seq<T>, keep: T -> bool)
    ensures Select(xs + ys, keep) == Select(xs, keep) + Select(ys, keep)
  {
    if xs != [] {
      SelectAppend(xs[1..], ys, keep);
      assert (xs + ys)[1..] == xs[1..] + ys;
      assert (xs + ys)[0] == xs[0];
    } else {
      assert xs + ys == ys;
    }
  }

  /** Joining a concatenation of recipe tables joins each part. */
  lemma {:induction false} InnerJoinAppend(rs: seq<Recipe>, qs: seq<Recipe>, contents: seq<RecipeContent>)
    ensures InnerJoin(rs + qs, contents) == InnerJoin(rs, contents) + InnerJoin(qs, contents)
  {
    if rs != [] {
      InnerJoinAppend(rs[1..], qs, contents);
      assert (rs + qs)[1..] == rs[1..] + qs;
      assert (rs + qs)[0] == rs[0];
    } else {
      assert rs + qs == qs;
    }
  }

  /** A filter no row passes keeps none of them. */
  lemma {:induction false} SelectNone<T(!new)>(xs: seq<T>, keep: T -> bool)
    requires forall i :: 0 <= i < |xs| ==> !keep(xs[i])
    ensures Select(xs, keep) == []
  {
    if xs != [] {
      SelectNone(xs[1..], keep);
    }
  }
}
