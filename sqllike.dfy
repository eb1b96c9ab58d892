/**
 * PostgreSQL's `text ILIKE pattern`, as the tag lookup uses it, with
 * `pattern = "%" + tag + "%"`.
 *
 * In a LIKE pattern `%` stands for any run of characters, `_` for any single
 * character, and a backslash (the default escape character) makes the next
 * character literal; every other character stands for itself. ILIKE compares
 * both sides in lower case; only ASCII letters are folded here.
 */
module SqlLike {
  import opened Wrappers

  datatype Token = AnyRun | AnyChar | Literal(c: char)

  function LowerChar(c: char): char
  {
    if 'A' <= c <= 'Z' then (c as int + 32) as char else c
  }

  function Lower(s: string): (r: string)
    ensures |r| == |s|
    ensures forall i :: 0 <= i < |s| ==> r[i] == LowerChar(s[i])
  {
    if s == [] then [] else [LowerChar(s[0])] + Lower(s[1..])
  }

  /** Characters that mean something in a LIKE pattern. */
  predicate IsPatternChar(c: char)
  {
    c == '%' || c == '_' || c == '\\'
  }

  predicate IsPlain(w: string)
  {
    forall i :: 0 <= i < |w| ==> !IsPatternChar(w[i])
  }

  /**
   * The pattern read as tokens. The model rejects a pattern ending in a lone
   * escape up front (`None`); PostgreSQL raises only once matching reaches it.
   */
  function Tokenize(p: string): Option<seq<Token>>
  {
    if p == [] then Some([])
    else if p[0] == '\\' then
      if |p| == 1 then None
      else match Tokenize(p[2..])
        case None => None
        case Some(rest) => Some([Literal(p[1])] + rest)
    else
      match Tokenize(p[1..])
      case None => None
      case Some(rest) =>
        Some([if p[0] == '%' then AnyRun else if p[0] == '_' then AnyChar else Literal(p[0])] + rest)
  }

  /** Whether all of `s` is matched by the token sequence. */
  function Matches(s: string, toks: seq<Token>): bool
    decreases |s| + |toks|
  {
    if toks == [] then s == []
    else match toks[0]
      case AnyRun => Matches(s, toks[1..]) || (s != [] && Matches(s[1..], toks))
      case AnyChar => s != [] && Matches(s[1..], toks[1..])
      case Literal(c) => s != [] && s[0] == c && Matches(s[1..], toks[1..])
  }

  function Literals(w: string): (toks: seq<Token>)
    ensures |toks| == |w|
    ensures forall i :: 0 <= i < |w| ==> toks[i] == Literal(w[i])
  {
    if w == [] then [] else [Literal(w[0])] + Literals(w[1..])
  }

  /** A pattern whose last character is not a backslash is always accepted. */
  lemma {:induction false} TokenizeAccepts(p: string)
    requires p == [] || p[|p| - 1] != '\\'
    ensures Tokenize(p).Some?
  {
    if p != [] {
      if p[0] == '\\' {
        TokenizeAccepts(p[2..]);
      } else {
        TokenizeAccepts(p[1..]);
      }
    }
  }

  /** The tokens of `"%" + tag + "%"`, lowered as ILIKE lowers it. */
  function TagPattern(tag: string): seq<Token>
  {
    var p := Lower("%" + tag + "%");
    TokenizeAccepts(p);
    Tokenize(p).value
  }

  /** `content ILIKE '%' || tag || '%'`, the tag spliced in with no escaping. */
  predicate TagMatches(content: string, tag: string)
  {
    Matches(Lower(content), TagPattern(tag))
  }

  /** `s` starts with `w`. */
  predicate IsPrefix(w: string, s: string)
  {
    |w| <= |s| && s[..|w|] == w
  }

  /** `w` occurs in `s` as a contiguous run. */
  predicate IsSubstring(w: string, s: string)
  {
    exists k :: 0 <= k <= |s| && IsPrefix(w, s[k..])
  }

  lemma {:induction false} TokenizePlainPrefix(w: string, rest: string)
    requires IsPlain(w)
    requires Tokenize(rest).Some?
    ensures Tokenize(w + rest) == Some(Literals(w) + Tokenize(rest).value)
  {
    if w == [] {
      assert w + rest == rest;
      assert Literals(w) + Tokenize(rest).value == Tokenize(rest).value;
    } else {
      assert (w + rest)[0] == w[0];
      assert !IsPatternChar(w[0]);
      assert (w + rest)[1..] == w[1..] + rest;
      assert IsPlain(w[1..]) by {
        forall i | 0 <= i < |w[1..]| ensures !IsPatternChar(w[1..][i]) {
          assert w[1..][i] == w[i + 1];
        }
      }
      TokenizePlainPrefix(w[1..], rest);
      var tail := Tokenize(rest).value;
      assert Literals(w) == [Literal(w[0])] + Literals(w[1..]);
      assert [Literal(w[0])] + (Literals(w[1..]) + tail) == Literals(w) + tail;
    }
  }

  lemma {:induction false} MatchesAnyRun(s: string)
    ensures Matches(s, [AnyRun])
  {
    assert [AnyRun][1..] == [];
    if s != [] {
      MatchesAnyRun(s[1..]);
    }
  }

  /** A plain word followed by `%` matches exactly the strings that start with it. */
  lemma {:induction false} MatchesPrefix(s: string, w: string)
    ensures Matches(s, Literals(w) + [AnyRun]) <==> IsPrefix(w, s)
  {
    if w == [] {
      assert Literals(w) + [AnyRun] == [AnyRun];
      MatchesAnyRun(s);
    } else {
      var toks := Literals(w) + [AnyRun];
      assert toks[0] == Literal(w[0]);
      assert toks[1..] == Literals(w[1..]) + [AnyRun];
      if s != [] {
        MatchesPrefix(s[1..], w[1..]);
        if |w| <= |s| && s[..|w|] == w {
          assert s[1..][..|w| - 1] == w[1..];
        }
        if s[0] == w[0] && |w| - 1 <= |s| - 1 && s[1..][..|w| - 1] == w[1..] {
          assert s[..|w|] == [s[0]] + s[1..][..|w| - 1];
        }
      }
    }
  }

  /** A leading `%` lets the rest of the pattern match any suffix. */
  lemma {:induction false} MatchesLeadingRun(s: string, toks: seq<Token>)
    ensures Matches(s, [AnyRun] + toks) <==> exists k :: 0 <= k <= |s| && Matches(s[k..], toks)
  {
    var all := [AnyRun] + toks;
    assert all[1..] == toks;
    if s == [] {
      assert s[0..] == s;
    } else {
      MatchesLeadingRun(s[1..], toks);
      if Matches(s, all) {
        if Matches(s, toks) {
          assert s[0..] == s;
        } else {
          var k :| 0 <= k <= |s| - 1 && Matches(s[1..][k..], toks);
          assert s[1..][k..] == s[k + 1..];
        }
      }
      if exists k :: 0 <= k <= |s| && Matches(s[k..], toks) {
        var k :| 0 <= k <= |s| && Matches(s[k..], toks);
        if k == 0 {
          assert s[0..] == s;
        } else {
          assert s[1..][k - 1..] == s[k..];
        }
      }
    }
  }

  lemma LowerConcat(a: string, b: string)
    ensures Lower(a + b) == Lower(a) + Lower(b)
  {
  }

  lemma LowerKeepsPlain(w: string)
    requires IsPlain(w)
    ensures IsPlain(Lower(w))
  {
  }

  lemma TokenizePercent()
    ensures Tokenize("%") == Some([AnyRun])
  {
    assert [AnyRun] + [] == [AnyRun];
    assert "%" != [] && "%"[0] == '%' && "%"[1..] == [];
  }

  /** For a plain tag the pattern is `%`, the lowered tag letter by letter, `%`. */
  lemma TagPatternOfPlain(tag: string)
    requires IsPlain(tag)
    ensures TagPattern(tag) == [AnyRun] + (Literals(Lower(tag)) + [AnyRun])
  {
    var lt := Lower(tag);
    LowerConcat("%" + tag, "%");
    LowerConcat("%", tag);
    assert Lower("%" + tag + "%") == "%" + (lt + "%");
    LowerKeepsPlain(tag);
    TokenizePercent();
    TokenizePlainPrefix(lt, "%");
    assert ("%" + (lt + "%"))[1..] == lt + "%";
  }

  /**
   * For a tag with no `%`, `_` or backslash, the ILIKE test is a
   * case-insensitive substring test.
   */
  lemma TagMatchesPlain(content: string, tag: string)
    requires IsPlain(tag)
    ensures TagMatches(content, tag) <==> IsSubstring(Lower(tag), Lower(content))
  {
    var lc, lt := Lower(content), Lower(tag);
    TagPatternOfPlain(tag);
    MatchesLeadingRun(lc, Literals(lt) + [AnyRun]);
    if TagMatches(content, tag) {
      var k :| 0 <= k <= |lc| && Matches(lc[k..], Literals(lt) + [AnyRun]);
      MatchesPrefix(lc[k..], lt);
    }
    if IsSubstring(lt, lc) {
      var k :| 0 <= k <= |lc| && IsPrefix(lt, lc[k..]);
      MatchesPrefix(lc[k..], lt);
    }
  }

  /** The empty tag matches every content string. */
  lemma EmptyTagMatchesAll(content: string)
    ensures TagMatches(content, "")
  {
    TagMatchesPlain(content, "");
    assert Lower("") == [];
    assert IsPrefix([], Lower(content)[0..]);
  }

  /** A tag of `%` is a wildcard and matches every content string too. */
  lemma PercentTagMatchesAll(content: string)
    ensures TagMatches(content, "%")
  {
    assert "%" + "%" + "%" == "%%%";
    assert Lower("%%%") == "%%%";
    assert "%%%"[1..] == "%%" && "%%"[1..] == "%";
    TokenizePercent();
    assert [AnyRun] + [AnyRun] == [AnyRun, AnyRun];
    assert Tokenize("%%") == Some([AnyRun, AnyRun]);
    assert [AnyRun] + [AnyRun, AnyRun] == [AnyRun, AnyRun, AnyRun];
    assert Tokenize("%%%") == Some([AnyRun, AnyRun, AnyRun]);
    assert TagPattern("%") == [AnyRun, AnyRun, AnyRun];
    assert [AnyRun, AnyRun, AnyRun][1..][1..] == [AnyRun];
    MatchesAnyRun(Lower(content));
  }

  /** A tag of `_` is a wildcard for one character: it matches every non-empty content string. */
  lemma UnderscoreTagMatchesNonEmpty(content: string)
    ensures TagMatches(content, "_") <==> content != []
  {
    var lc := Lower(content);
    assert "%" + "_" + "%" == "%_%";
    assert Lower("%_%") == "%_%";
    assert "%_%"[1..] == "_%" && "_%"[1..] == "%";
    TokenizePercent();
    assert [AnyChar] + [AnyRun] == [AnyChar, AnyRun];
    assert Tokenize("_%") == Some([AnyChar, AnyRun]);
    assert [AnyRun] + [AnyChar, AnyRun] == [AnyRun, AnyChar, AnyRun];
    assert Tokenize("%_%") == Some([AnyRun, AnyChar, AnyRun]);
    var toks := [AnyChar, AnyRun];
    assert TagPattern("_") == [AnyRun] + toks;
    MatchesLeadingRun(lc, toks);
    if content != [] {
      assert lc[0..] == lc;
      assert toks[1..] == [AnyRun];
      MatchesAnyRun(lc[1..]);
    }
  }
}
