/**
 * The split-based keyword matcher of the status plugin (`ReplaceKeyword`).
 *
 * The template is cut once at every `{` and `}`; the resulting pieces are the
 * candidate placeholder bodies. A call for one keyword looks at the pieces that
 * contain the keyword as a substring: with an empty value every braced
 * occurrence `{piece}` of them is deleted; otherwise each loses its braces and
 * then every occurrence of the keyword anywhere in the text becomes the value.
 */
module Keywords {
  import opened Strings

  /** The characters the template is split on. */
  const Braces: set<char> := {'{', '}'}

  /** A piece written back between braces, as the matcher searches for it. */
  function Braced(piece: string): (r: string)
    ensures |r| == |piece| + 2 && r[0] == '{' && r[|r| - 1] == '}'
  {
    "{" + piece + "}"
  }

  /** Some piece contains the keyword (LINQ `Any`). */
  predicate AnyContains(pieces: seq<string>, keyword: string) {
    exists p :: p in pieces && Contains(p, keyword)
  }

  /** The pieces that contain the keyword, in order and with repeats (LINQ `Where`). */
  function Containing(pieces: seq<string>, keyword: string): (r: seq<string>)
    ensures |r| <= |pieces|
    ensures r == [] <==> !AnyContains(pieces, keyword)
    decreases |pieces|
  {
    if pieces == [] then []
    else
      var last := pieces[|pieces| - 1];
      assert pieces == pieces[..|pieces| - 1] + [last];
      Containing(pieces[..|pieces| - 1], keyword) + (if Contains(last, keyword) then [last] else [])
  }

  /** The matching pieces are exactly the pieces that contain the keyword. */
  lemma {:induction false} ContainingMembers(pieces: seq<string>, keyword: string)
    ensures forall p :: p in Containing(pieces, keyword) <==> p in pieces && Contains(p, keyword)
    decreases |pieces|
  {
    if pieces != [] {
      var init := pieces[..|pieces| - 1];
      ContainingMembers(init, keyword);
      assert pieces == init + [pieces[|pieces| - 1]];
    }
  }

  /**
   * Rewrites `{p}` for each `p` of `pieces` in turn, into `p` when `unwrap`
   * holds and into nothing otherwise.
   */
  function RewriteBraced(text: string, pieces: seq<string>, unwrap: bool): string
    decreases |pieces|
  {
    if pieces == [] then text
    else
      var last := pieces[|pieces| - 1];
      Replace(RewriteBraced(text, pieces[..|pieces| - 1], unwrap), Braced(last), if unwrap then last else [])
  }

  /** The text one `ReplaceKeyword` call produces. */
  function Substitute(keyword: string, value: string, pieces: seq<string>, text: string): string
    requires keyword != []
  {
    if !AnyContains(pieces, keyword) then text
    else
      var matching := Containing(pieces, keyword);
      if value == [] then RewriteBraced(text, matching, false)
      else Replace(RewriteBraced(text, matching, true), keyword, value)
  }

  /**
   * One substitution step as the plugin runs it: the `keywords` pieces are
   * those of the original template, passed unchanged to every call. An empty
   * value stands for the plugin's null or empty string.
   */
  method ReplaceKeyword(keyword: string, replaceKeyword: string, keywords: seq<string>, text: string)
    returns (r: string)
    requires keyword != []
    ensures r == Substitute(keyword, replaceKeyword, keywords, text)
  {
    if !AnyContains(keywords, keyword) {
      return text;
    }
    if replaceKeyword == [] {
      r := RewriteMatching(keyword, keywords, text, false);
      return r;
    }
    r := RewriteMatching(keyword, keywords, text, true);
    r := Replace(r, keyword, replaceKeyword);
  }

  /**
   * One of the two `foreach` loops of `ReplaceKeyword`: for each piece that
   * contains the keyword, in order, `{piece}` is replaced by the piece when
   * `unwrap` holds and by nothing otherwise.
   */
  method RewriteMatching(keyword: string, keywords: seq<string>, text: string, unwrap: bool)
    returns (r: string)
    ensures r == RewriteBraced(text, Containing(keywords, keyword), unwrap)
  {
    r := text;
    var i := 0;
    while i < |keywords|
      invariant 0 <= i <= |keywords|
      invariant r == RewriteBraced(text, Containing(keywords[..i], keyword), unwrap)
    {
      ghost var done := Containing(keywords[..i], keyword);
      ContainingExtend(keywords, i, keyword);
      if Contains(keywords[i], keyword) {
        RewriteBracedExtend(text, done, keywords[i], unwrap);
        r := Replace(r, Braced(keywords[i]), if unwrap then keywords[i] else []);
        assert r == RewriteBraced(text, done + [keywords[i]], unwrap);
      }
      i := i + 1;
    }
    assert keywords[..i] == keywords;
  }

  /** Taking one more piece adds it to the matching pieces exactly when it contains the keyword. */
  lemma ContainingExtend(pieces: seq<string>, i: nat, keyword: string)
    requires i < |pieces|
    ensures Containing(pieces[..i + 1], keyword)
      == if Contains(pieces[i], keyword) then Containing(pieces[..i], keyword) + [pieces[i]]
         else Containing(pieces[..i], keyword)
  {
    assert pieces[..i + 1][..i] == pieces[..i];
    var done := Containing(pieces[..i], keyword);
    assert done + [] == done;
  }

  /** Rewriting one more piece is one more `Replace` of it between braces. */
  lemma RewriteBracedExtend(text: string, done: seq<string>, p: string, unwrap: bool)
    ensures RewriteBraced(text, done + [p], unwrap)
      == Replace(RewriteBraced(text, done, unwrap), Braced(p), if unwrap then p else [])
  {
    assert (done + [p])[..|done|] == done;
  }

  /**
   * A keyword that the template never mentions is in none of its pieces, so
   * the call leaves any text alone, whatever earlier calls put into it.
   */
  lemma AbsentKeyword(keyword: string, value: string, template: string, text: string)
    requires keyword != [] && !Contains(template, keyword)
    ensures !AnyContains(Split(template, Braces), keyword)
    ensures Substitute(keyword, value, Split(template, Braces), text) == text
  {
    var pieces := Split(template, Braces);
    forall i | 0 <= i < |pieces|
      ensures !Contains(pieces[i], keyword)
    {
      var j := SplitPieceOccurs(template, Braces, i);
      ContainsTransitive(template, pieces[i], j, keyword);
    }
  }

  /** A rewrite of braced pieces none of which occurs in the text changes nothing. */
  lemma {:induction false} RewriteBracedAbsent(text: string, pieces: seq<string>, unwrap: bool)
    requires forall p :: p in pieces ==> !Contains(text, Braced(p))
    ensures RewriteBraced(text, pieces, unwrap) == text
    decreases |pieces|
  {
    if pieces != [] {
      RewriteBracedAbsent(text, pieces[..|pieces| - 1], unwrap);
    }
  }

  /**
   * With an empty value the keyword itself is never touched: a text in which
   * no matching piece appears between braces comes back unchanged, even if
   * the keyword occurs in it.
   */
  lemma EmptyValueDeletesOnlyBraced(keyword: string, pieces: seq<string>, text: string)
    requires keyword != []
    requires forall p :: p in pieces && Contains(p, keyword) ==> !Contains(text, Braced(p))
    ensures Substitute(keyword, [], pieces, text) == text
  {
    ContainingMembers(pieces, keyword);
    RewriteBracedAbsent(text, Containing(pieces, keyword), false);
  }

  /** The pieces of a template made of one braced span `{inner}`. */
  lemma SplitSingleSpan(inner: string)
    requires DelimiterFree(inner, Braces)
    ensures Split(Braced(inner), Braces) == [[], inner, []]
  {
    assert Braced(inner) == [] + ['{'] + (inner + ['}'] + []);
    assert inner + ['}'] + [] == inner + ['}'];
    SplitAtDelimiter([], '{', inner + ['}'], Braces);
    SplitAtDelimiter(inner, '}', [], Braces);
  }

  /** Rewriting the one braced piece of a text that is exactly that braced piece. */
  lemma RewriteOwnSpan(inner: string, unwrap: bool)
    ensures RewriteBraced(Braced(inner), [inner], unwrap) == if unwrap then inner else []
  {
    var none: seq<string> := [];
    assert [inner][..0] == none;
    ReplaceWhole(Braced(inner), if unwrap then inner else []);
  }

  /**
   * A template that is one braced span `{inner}` whose body mentions the
   * keyword: an empty value deletes the span whole; otherwise the braces go
   * and the keyword is replaced inside the body.
   */
  lemma SingleSpan(inner: string, keyword: string, value: string)
    requires keyword != [] && DelimiterFree(inner, Braces) && Contains(inner, keyword)
    ensures var t := Braced(inner);
      Substitute(keyword, value, Split(t, Braces), t) == if value == [] then [] else Replace(inner, keyword, value)
  {
    var t := Braced(inner);
    SplitSingleSpan(inner);
    var empty: string := [];
    var none: seq<string> := [];
    var pieces := [empty, inner, empty];
    assert !Contains(empty, keyword);
    assert Containing(pieces, keyword) == [inner] by {
      assert pieces[..2] == [empty, inner] && [empty, inner][..1] == [empty] && [empty][..0] == none;
      assert Containing([empty], keyword) == none;
      assert Containing([empty, inner], keyword) == [inner];
    }
    assert AnyContains(pieces, keyword);
    RewriteOwnSpan(inner, value != []);
  }

  /**
   * A template that is one decorated span `{d1 K d2}` (for instance
   * `{[modifiers]}`): an empty value deletes it whole, decoration included;
   * a non-empty value keeps the decoration and puts the value where the
   * keyword was, provided the decoration before the keyword cannot start it
   * and the decoration after it does not contain it.
   */
  lemma DecoratedSpan(d1: string, keyword: string, d2: string, value: string)
    requires keyword != []
    requires DelimiterFree(d1 + keyword + d2, Braces)
    requires keyword[0] !in d1 && !Contains(d2, keyword)
    ensures var t := Braced(d1 + keyword + d2);
      Substitute(keyword, value, Split(t, Braces), t) == if value == [] then [] else d1 + value + d2
  {
    var inner := d1 + keyword + d2;
    ContainsEmbedded(d1, keyword, d2);
    SingleSpan(inner, keyword, value);
    if value != [] {
      ReplaceSingleOccurrence(d1, keyword, d2, value);
    }
  }

  /** `{K}` alone becomes exactly the value, or nothing when the value is empty. */
  lemma PlainSpan(keyword: string, value: string)
    requires keyword != [] && DelimiterFree(keyword, Braces)
    ensures var t := Braced(keyword);
      Substitute(keyword, value, Split(t, Braces), t) == value
  {
    assert !Contains([], keyword);
    assert [] + keyword + [] == keyword;
    DecoratedSpan([], keyword, [], value);
  }

  /** The pieces of a template with one braced span and brace-free text around it. */
  lemma SplitEmbedded(a: string, inner: string, b: string)
    requires DelimiterFree(a, Braces) && DelimiterFree(inner, Braces) && DelimiterFree(b, Braces)
    ensures Split(a + Braced(inner) + b, Braces) == [a, inner, b]
  {
    BracedRegroup(a, inner, b);
    SplitAtDelimiter(a, '{', inner + ['}'] + b, Braces);
    SplitAtDelimiter(inner, '}', b, Braces);
    SplitDelimiterFree(b, Braces);
  }

  /** Proof helper: a braced span inside text, read from left to right. */
  lemma BracedRegroup(a: string, inner: string, b: string)
    ensures a + Braced(inner) + b == a + ['{'] + (inner + ['}'] + b)
  {
  }

  /** Of three pieces, only the middle one mentions the keyword. */
  lemma ContainingMiddle(a: string, inner: string, b: string, keyword: string)
    requires !Contains(a, keyword) && Contains(inner, keyword) && !Contains(b, keyword)
    ensures Containing([a, inner, b], keyword) == [inner]
  {
    var none: seq<string> := [];
    ContainingSnoc(none, a, keyword);
    assert none + [a] == [a];
    ContainingSnoc([a], inner, keyword);
    assert [a] + [inner] == [a, inner];
    ContainingSnoc([a, inner], b, keyword);
    assert [a, inner] + [b] == [a, inner, b];
  }

  /** Proof helper: a piece appended at the end joins the selection exactly when it contains the keyword. */
  lemma ContainingSnoc(init: seq<string>, p: string, keyword: string)
    ensures Containing(init + [p], keyword)
      == Containing(init, keyword) + (if Contains(p, keyword) then [p] else [])
  {
    assert (init + [p])[..|init|] == init;
  }

  /** The one braced span of such a template is rewritten in place. */
  lemma RewriteEmbedded(a: string, inner: string, b: string)
    requires DelimiterFree(a, Braces) && DelimiterFree(b, Braces)
    ensures RewriteBraced(a + Braced(inner) + b, [inner], false) == a + b
    ensures RewriteBraced(a + Braced(inner) + b, [inner], true) == a + inner + b
  {
    var none: seq<string> := [];
    assert [inner][..0] == none;
    var pat := Braced(inner);
    if Contains(b, pat) {
      ContainedCharsOccur(b, pat, '{');
      assert false;
    }
    ReplaceSingleOccurrence(a, pat, b, []);
    assert a + [] + b == a + b;
    ReplaceSingleOccurrence(a, pat, b, inner);
  }

  /**
   * A span `{inner}` that mentions the keyword, with brace-free text around
   * it that does not: an empty value deletes the span and leaves the text
   * around it exactly as it was; otherwise only the two braces go, and the
   * keyword is then replaced throughout.
   */
  lemma EmbeddedSpan(a: string, inner: string, b: string, keyword: string, value: string)
    requires keyword != []
    requires DelimiterFree(a, Braces) && DelimiterFree(inner, Braces) && DelimiterFree(b, Braces)
    requires Contains(inner, keyword) && !Contains(a, keyword) && !Contains(b, keyword)
    ensures var t := a + Braced(inner) + b;
      Substitute(keyword, value, Split(t, Braces), t)
        == if value == [] then a + b else Replace(a + inner + b, keyword, value)
  {
    var t := a + Braced(inner) + b;
    SplitEmbedded(a, inner, b);
    ContainingMiddle(a, inner, b, keyword);
    SubstituteEmbedded(a, inner, b, keyword, value, Split(t, Braces));
  }

  /** The call on a text `a + {inner} + b` in which `inner` is the one matching piece. */
  lemma SubstituteEmbedded(a: string, inner: string, b: string, keyword: string, value: string, pieces: seq<string>)
    requires keyword != [] && Containing(pieces, keyword) == [inner]
    requires DelimiterFree(a, Braces) && DelimiterFree(b, Braces)
    ensures Substitute(keyword, value, pieces, a + Braced(inner) + b)
      == if value == [] then a + b else Replace(a + inner + b, keyword, value)
  {
    SubstituteOnePiece(keyword, value, pieces, a + Braced(inner) + b, inner);
    RewriteEmbedded(a, inner, b);
  }

  /** A call where exactly one piece mentions the keyword rewrites that piece alone. */
  lemma SubstituteOnePiece(keyword: string, value: string, pieces: seq<string>, text: string, p: string)
    requires keyword != [] && Containing(pieces, keyword) == [p]
    ensures Substitute(keyword, value, pieces, text)
      == if value == [] then RewriteBraced(text, [p], false) else Replace(RewriteBraced(text, [p], true), keyword, value)
  {
    ContainingMembers(pieces, keyword);
    assert p in Containing(pieces, keyword);
  }

  /**
   * A decorated span `{d1 K d2}` inside text, as `Star: {star}` or
   * `{[modifiers]}` sit in a template line: an empty value deletes the span
   * with its decoration; otherwise the value takes the keyword's place and
   * everything else stays, provided the keyword occurs only there.
   */
  lemma EmbeddedDecoratedSpan(a: string, d1: string, keyword: string, d2: string, b: string, value: string)
    requires keyword != []
    requires DelimiterFree(a, Braces) && DelimiterFree(d1 + keyword + d2, Braces) && DelimiterFree(b, Braces)
    requires keyword[0] !in a + d1 && !Contains(d2 + b, keyword)
    ensures var t := a + Braced(d1 + keyword + d2) + b;
      Substitute(keyword, value, Split(t, Braces), t)
        == if value == [] then a + b else a + d1 + value + d2 + b
  {
    var inner := d1 + keyword + d2;
    ContainsEmbedded(d1, keyword, d2);
    if Contains(a, keyword) {
      ContainedCharsOccur(a, keyword, keyword[0]);
      assert false;
    }
    SuffixContains(d2, b, keyword);
    EmbeddedSpan(a, inner, b, keyword, value);
    if value != [] {
      DecoratedReplace(a, d1, keyword, d2, b, value);
    }
  }

  /** Whatever a suffix contains, the whole text contains. */
  lemma SuffixContains(d: string, b: string, keyword: string)
    ensures Contains(b, keyword) ==> Contains(d + b, keyword)
  {
    OccursEmbedded(d, b, []);
    assert d + b + [] == d + b;
    ContainsTransitive(d + b, b, |d|, keyword);
  }

  /** The one occurrence of the keyword in the unwrapped text becomes the value. */
  lemma DecoratedReplace(a: string, d1: string, keyword: string, d2: string, b: string, value: string)
    requires keyword != [] && keyword[0] !in a + d1 && !Contains(d2 + b, keyword)
    ensures Replace(a + (d1 + keyword + d2) + b, keyword, value) == a + d1 + value + d2 + b
  {
    SpanRegroup(a, d1, keyword, d2, b);
    ReplaceSingleOccurrence(a + d1, keyword, d2 + b, value);
    SpanRegroup(a, d1, value, d2, b);
  }

  /** Proof helper: the two ways the text around a decorated span associates. */
  lemma SpanRegroup(a: string, d1: string, k: string, d2: string, b: string)
    ensures a + (d1 + k + d2) + b == (a + d1) + k + (d2 + b)
    ensures (a + d1) + k + (d2 + b) == a + d1 + k + d2 + b
  {
  }

  /**
   * A template without braces is one piece: if it mentions the keyword as
   * plain text, an empty value leaves it alone and a non-empty value replaces
   * every occurrence of the keyword in it.
   */
  lemma BraceFreeTemplate(keyword: string, value: string, t: string)
    requires keyword != [] && DelimiterFree(t, Braces) && Contains(t, keyword)
    ensures Substitute(keyword, value, Split(t, Braces), t) == if value == [] then t else Replace(t, keyword, value)
  {
    SplitDelimiterFree(t, Braces);
    var none: seq<string> := [];
    assert [t][..0] == none;
    assert Containing([t], keyword) == [t];
    if Contains(t, Braced(t)) {
      ContainedCharsOccur(t, Braced(t), '{');
      assert false;
    }
    assert RewriteBraced(t, [t], value != []) == t;
  }
}
