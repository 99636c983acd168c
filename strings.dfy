/**
 * The ordinal .NET string operations the status plugin relies on, stated over
 * `seq<char>`: `Contains`, `Replace(string, string)`, `Split(params char[])`
 * and `Trim(params char[])`.
 */
module Strings {

  /** `sub` is a prefix of `s`. */
  predicate IsPrefix(sub: string, s: string) {
    |sub| <= |s| && s[..|sub|] == sub
  }

  /** `sub` occurs in `s` starting at index `i`. */
  predicate OccursAt(s: string, sub: string, i: int) {
    0 <= i && i + |sub| <= |s| && s[i..i + |sub|] == sub
  }

  /** Ordinal `String.Contains`: `sub` is a prefix of some suffix of `s`. */
  predicate Contains(s: string, sub: string)
    decreases |s|
  {
    IsPrefix(sub, s) || (s != [] && Contains(s[1..], sub))
  }

  /** `Contains` holds exactly when `sub` occurs at some index of `s`. */
  lemma {:induction false} ContainsIffOccurs(s: string, sub: string)
    ensures Contains(s, sub) <==> exists i :: OccursAt(s, sub, i)
    decreases |s|
  {
    if IsPrefix(sub, s) {
      assert OccursAt(s, sub, 0);
    } else if s == [] {
      assert sub != [];
    } else {
      ContainsIffOccurs(s[1..], sub);
      if Contains(s[1..], sub) {
        var i :| OccursAt(s[1..], sub, i);
        assert s[1..][i..i + |sub|] == s[i + 1..i + 1 + |sub|];
        assert OccursAt(s, sub, i + 1);
      }
      if exists i :: OccursAt(s, sub, i) {
        var i :| OccursAt(s, sub, i);
        assert i != 0;
        assert s[1..][i - 1..i - 1 + |sub|] == s[i..i + |sub|];
        assert OccursAt(s[1..], sub, i - 1);
      }
    }
  }

  /** Every character of an occurring `sub` is a character of `s`. */
  lemma ContainedCharsOccur(s: string, sub: string, c: char)
    requires Contains(s, sub) && c in sub
    ensures c in s
  {
    ContainsIffOccurs(s, sub);
    var i :| OccursAt(s, sub, i);
    var k :| 0 <= k < |sub| && sub[k] == c;
    assert s[i + k] == s[i..i + |sub|][k];
  }

  /** A pattern embedded between two texts occurs right after the first. */
  lemma OccursEmbedded(a: string, sub: string, b: string)
    ensures OccursAt(a + sub + b, sub, |a|)
  {
    assert (a + sub + b)[|a|..|a| + |sub|] == sub;
  }

  /** A pattern is found inside any text that embeds it. */
  lemma ContainsEmbedded(a: string, sub: string, b: string)
    ensures Contains(a + sub + b, sub)
  {
    OccursEmbedded(a, sub, b);
    ContainsIffOccurs(a + sub + b, sub);
  }

  /** An occurrence of `k` inside an occurrence of `p` is an occurrence in `s`. */
  lemma OccursInside(s: string, p: string, j: int, k: string, i: int)
    requires OccursAt(s, p, j) && OccursAt(p, k, i)
    ensures OccursAt(s, k, j + i)
  {
    forall t | 0 <= t < |k|
      ensures s[j + i..j + i + |k|][t] == k[t]
    {
      assert s[j + i + t] == s[j..j + |p|][i + t] == p[i..i + |k|][t];
    }
  }

  /** Whatever a substring of `s` contains, `s` contains too. */
  lemma ContainsTransitive(s: string, p: string, j: int, k: string)
    requires OccursAt(s, p, j)
    ensures Contains(p, k) ==> Contains(s, k)
  {
    ContainsIffOccurs(p, k);
    ContainsIffOccurs(s, k);
    if Contains(p, k) {
      var i :| OccursAt(p, k, i);
      OccursInside(s, p, j, k, i);
    }
  }

  /**
   * Ordinal `String.Replace(pat, by)`: scans `s` from the left and replaces each
   * occurrence of `pat` that does not overlap an occurrence already replaced.
   * .NET rejects an empty pattern, hence the precondition.
   */
  function Replace(s: string, pat: string, rep: string): (r: string)
    requires pat != []
    ensures !Contains(s, pat) ==> r == s
    decreases |s|
  {
    if |s| < |pat| then s
    else if s[..|pat|] == pat then rep + Replace(s[|pat|..], pat, rep)
    else [s[0]] + Replace(s[1..], pat, rep)
  }

  /** Replacing a whole text that equals the pattern yields the replacement. */
  lemma ReplaceWhole(pat: string, rep: string)
    requires pat != []
    ensures Replace(pat, pat, rep) == rep
  {
    assert pat[|pat|..] == [];
  }

  /** Replacing the pattern by itself gives back the text. */
  lemma {:induction false} ReplaceIdentity(s: string, pat: string)
    requires pat != []
    ensures Replace(s, pat, pat) == s
    decreases |s|
  {
    if |s| >= |pat| {
      if s[..|pat|] == pat {
        ReplaceIdentity(s[|pat|..], pat);
        assert s[..|pat|] + s[|pat|..] == s;
      } else {
        ReplaceIdentity(s[1..], pat);
        assert [s[0]] + s[1..] == s;
      }
    }
  }

  /** An occurrence at the very start is replaced and the scan resumes after it. */
  lemma ReplaceAtHead(pat: string, b: string, rep: string)
    requires pat != []
    ensures Replace(pat + b, pat, rep) == rep + Replace(b, pat, rep)
  {
    assert (pat + b)[..|pat|] == pat;
    assert (pat + b)[|pat|..] == b;
  }

  /**
   * A prefix none of whose characters can start the pattern is copied
   * unchanged; the scan continues on the rest.
   */
  lemma {:induction false} ReplaceSkipsPrefix(a: string, b: string, pat: string, rep: string)
    requires pat != [] && pat[0] !in a
    ensures Replace(a + b, pat, rep) == a + Replace(b, pat, rep)
    decreases |a|
  {
    if a != [] {
      var s := a + b;
      if |s| < |pat| {
        assert |b| < |pat|;
      } else {
        assert s[0] == a[0] && s[..|pat|][0] != pat[0];
        assert s[1..] == a[1..] + b;
        ReplaceSkipsPrefix(a[1..], b, pat, rep);
        assert [a[0]] + a[1..] == a;
      }
    } else {
      assert a + b == b;
    }
  }

  /**
   * A pattern embedded once, with nothing before it able to start an
   * occurrence and no occurrence after it, is replaced exactly there.
   */
  lemma ReplaceSingleOccurrence(a: string, pat: string, b: string, rep: string)
    requires pat != [] && pat[0] !in a && !Contains(b, pat)
    ensures Replace(a + pat + b, pat, rep) == a + rep + b
  {
    assert a + pat + b == a + (pat + b);
    ReplaceSkipsPrefix(a, pat + b, pat, rep);
    ReplaceAtHead(pat, b, rep);
    assert a + (rep + b) == a + rep + b;
  }

  /** Characters in `d` delimit pieces. */
  predicate DelimiterFree(p: string, d: set<char>) {
    forall c :: c in p ==> c !in d
  }

  /** The delimiter characters of `s`, in order. */
  function Separators(s: string, d: set<char>): (r: string)
    ensures |r| <= |s|
    ensures forall c :: c in r ==> c in d
  {
    if s == [] then []
    else if s[0] in d then [s[0]] + Separators(s[1..], d)
    else Separators(s[1..], d)
  }

  /**
   * `String.Split(params char[] d)`: cuts `s` at every character of `d`;
   * adjacent delimiters and delimiters at either end give empty pieces.
   */
  function Split(s: string, d: set<char>): (r: seq<string>)
    ensures |r| == |Separators(s, d)| + 1
    ensures forall i :: 0 <= i < |r| ==> DelimiterFree(r[i], d)
  {
    if s == [] then [[]]
    else
      var rest := Split(s[1..], d);
      if s[0] in d then [[]] + rest
      else [[s[0]] + rest[0]] + rest[1..]
  }

  /** Puts the separators back between the pieces: the inverse of `Split`. */
  function Interleave(pieces: seq<string>, seps: string): (r: string)
    requires |pieces| == |seps| + 1
    ensures |r| == |seps| + SumLengths(pieces)
    decreases |seps|
  {
    if seps == [] then pieces[0]
    else pieces[0] + [seps[0]] + Interleave(pieces[1..], seps[1..])
  }

  function SumLengths(pieces: seq<string>): nat {
    if pieces == [] then 0 else |pieces[0]| + SumLengths(pieces[1..])
  }

  lemma InterleaveExtendFirst(c: char, pieces: seq<string>, seps: string)
    requires |pieces| == |seps| + 1
    ensures Interleave([[c] + pieces[0]] + pieces[1..], seps) == [c] + Interleave(pieces, seps)
  {
    var extended := [[c] + pieces[0]] + pieces[1..];
    assert extended[1..] == pieces[1..];
  }

  /** Splitting loses nothing: the pieces and separators rebuild the text. */
  lemma {:induction false} SplitRoundTrip(s: string, d: set<char>)
    ensures Interleave(Split(s, d), Separators(s, d)) == s
    decreases |s|
  {
    if s != [] {
      SplitRoundTrip(s[1..], d);
      var rest := Split(s[1..], d);
      if s[0] in d {
        assert ([[]] + rest)[1..] == rest;
      } else {
        InterleaveExtendFirst(s[0], rest, Separators(s[1..], d));
      }
      assert [s[0]] + s[1..] == s;
    }
  }

  /** The first piece is a prefix of the text. */
  lemma {:induction false} SplitFirstIsPrefix(s: string, d: set<char>)
    ensures IsPrefix(Split(s, d)[0], s)
    decreases |s|
  {
    if s != [] && s[0] !in d {
      SplitFirstIsPrefix(s[1..], d);
      var first := Split(s[1..], d)[0];
      assert s[..1 + |first|] == [s[0]] + s[1..][..|first|];
    }
  }

  /** Every piece is a substring of the text; `j` is where it starts. */
  lemma {:induction false} SplitPieceOccurs(s: string, d: set<char>, i: nat) returns (j: nat)
    requires i < |Split(s, d)|
    ensures OccursAt(s, Split(s, d)[i], j)
    decreases |s|
  {
    if s == [] {
      return 0;
    }
    var rest := Split(s[1..], d);
    if i == 0 {
      SplitFirstIsPrefix(s, d);
      return 0;
    }
    var k := if s[0] in d then i - 1 else i;
    assert Split(s, d)[i] == rest[k];
    var j' := SplitPieceOccurs(s[1..], d, k);
    OccursShiftUp(s[1..], s, 1, rest[k], j');
    return j' + 1;
  }

  /** A text without delimiters is a single piece. */
  lemma {:induction false} SplitDelimiterFree(s: string, d: set<char>)
    requires DelimiterFree(s, d)
    ensures Split(s, d) == [s]
    decreases |s|
  {
    if s != [] {
      SplitDelimiterFree(s[1..], d);
      assert [s[0]] + s[1..] == s;
    }
  }

  /** A delimiter-free stretch up to a delimiter becomes one piece. */
  lemma {:induction false} SplitAtDelimiter(p: string, c: char, rest: string, d: set<char>)
    requires DelimiterFree(p, d) && c in d
    ensures Split(p + [c] + rest, d) == [p] + Split(rest, d)
    decreases |p|
  {
    var s := p + [c] + rest;
    if p == [] {
      assert s[0] == c && s[1..] == rest;
    } else {
      assert s[1..] == p[1..] + [c] + rest;
      SplitAtDelimiter(p[1..], c, rest, d);
      assert [p[0]] + p[1..] == p;
    }
  }

  /** The number of leading characters of `s` that belong to `cs`. */
  function LeadCount(s: string, cs: set<char>): (n: nat)
    ensures n <= |s|
    ensures forall k :: 0 <= k < n ==> s[k] in cs
    ensures n < |s| ==> s[n] !in cs
  {
    if s != [] && s[0] in cs then 1 + LeadCount(s[1..], cs) else 0
  }

  /** The number of trailing characters of `s` that belong to `cs`. */
  function TrailCount(s: string, cs: set<char>): (n: nat)
    ensures n <= |s|
    ensures forall k :: |s| - n <= k < |s| ==> s[k] in cs
    ensures n < |s| ==> s[|s| - 1 - n] !in cs
  {
    if s != [] && s[|s| - 1] in cs then 1 + TrailCount(s[..|s| - 1], cs) else 0
  }

  /**
   * `String.Trim(params char[] cs)`: drops every leading and every trailing
   * character that belongs to `cs`; what is left is the middle of `s`,
   * untouched.
   */
  function Trim(s: string, cs: set<char>): (r: string)
    ensures r == [] || (r[0] !in cs && r[|r| - 1] !in cs)
    ensures r == [] <==> forall k :: 0 <= k < |s| ==> s[k] in cs
    ensures var a := LeadCount(s, cs);
      a + |r| <= |s| && r == s[a..a + |r|] &&
      forall k :: a + |r| <= k < |s| ==> s[k] in cs
  {
    var a := LeadCount(s, cs);
    if a == |s| then []
    else
      var t := TrailCount(s[a..], cs);
      assert s[a..][|s[a..]| - 1 - t] == s[|s| - 1 - t];
      s[a..|s| - t]
  }

  /**
   * Trimming never cuts into a stretch that begins and ends with characters
   * outside the trimmed set.
   */
  lemma TrimKeepsInterior(s: string, cs: set<char>, w: string, i: nat)
    requires OccursAt(s, w, i) && w != []
    requires w[0] !in cs && w[|w| - 1] !in cs
    ensures Contains(Trim(s, cs), w)
  {
    TrimOccurrence(s, cs, w, i);
    OccursContains(Trim(s, cs), w, i - LeadCount(s, cs));
  }

  /**
   * An occurrence that starts and ends outside the trimmed set is kept, moved
   * left by the number of leading characters trimmed.
   */
  lemma TrimOccurrence(s: string, cs: set<char>, w: string, i: nat)
    requires OccursAt(s, w, i) && w != []
    requires w[0] !in cs && w[|w| - 1] !in cs
    ensures LeadCount(s, cs) <= i && OccursAt(Trim(s, cs), w, i - LeadCount(s, cs))
  {
    OccurrenceEnds(s, w, i);
    TrimBounds(s, cs, i, i + |w| - 1);
    OccursShiftDown(Trim(s, cs), s, LeadCount(s, cs), w, i);
  }

  /** The first and last characters of an occurrence are those of the pattern. */
  lemma OccurrenceEnds(s: string, w: string, i: nat)
    requires OccursAt(s, w, i) && w != []
    ensures s[i] == w[0] && s[i + |w| - 1] == w[|w| - 1]
  {
    assert s[i] == s[i..i + |w|][0];
    assert s[i + |w| - 1] == s[i..i + |w|][|w| - 1];
  }

  /** Characters outside the trimmed set lie inside what `Trim` keeps. */
  lemma TrimBounds(s: string, cs: set<char>, lo: nat, hi: nat)
    requires lo <= hi < |s| && s[lo] !in cs && s[hi] !in cs
    ensures LeadCount(s, cs) <= lo && hi < LeadCount(s, cs) + |Trim(s, cs)|
  {
  }

  /** An occurrence at a known index makes the text contain the pattern. */
  lemma OccursContains(s: string, sub: string, i: int)
    requires OccursAt(s, sub, i)
    ensures Contains(s, sub)
  {
    ContainsIffOccurs(s, sub);
  }

  /** An occurrence inside the stretch of `s` that starts at `lo` is an occurrence in that stretch. */
  lemma OccursShiftDown(r: string, s: string, lo: nat, w: string, i: nat)
    requires lo + |r| <= |s| && r == s[lo..lo + |r|]
    requires OccursAt(s, w, i) && lo <= i && i + |w| <= lo + |r|
    ensures OccursAt(r, w, i - lo)
  {
    forall t | 0 <= t < |w|
      ensures r[i - lo..i - lo + |w|][t] == w[t]
    {
      assert r[i - lo + t] == s[lo..lo + |r|][i - lo + t] == s[i..i + |w|][t];
    }
  }

  /** An occurrence in the stretch of `s` that starts at `lo` is an occurrence in `s`. */
  lemma OccursShiftUp(r: string, s: string, lo: nat, w: string, k: nat)
    requires lo + |r| <= |s| && r == s[lo..lo + |r|]
    requires OccursAt(r, w, k)
    ensures OccursAt(s, w, lo + k)
  {
    forall t | 0 <= t < |w|
      ensures s[lo + k..lo + k + |w|][t] == w[t]
    {
      assert s[lo + k + t] == s[lo..lo + |r|][k + t] == r[k..k + |w|][t];
    }
  }
}
