/**
 * `simpleMostSimilar(a, b)` from the Node.js helpers: the fraction of the
 * second text's tokens that also occur among the first text's tokens, where a
 * text's tokens are its maximal runs of word characters after lower-casing.
 */
module Similarity {
  import opened Wrappers
  import Text

  /** `\w` of a JavaScript regular expression without the `u` flag. */
  predicate IsWordChar(c: char)
  {
    'a' <= c <= 'z' || 'A' <= c <= 'Z' || '0' <= c <= '9' || c == '_'
  }

  /** `\s` of a JavaScript regular expression: the WhiteSpace characters
      (tab, vertical tab, form feed, U+FEFF and the space separators) and the
      line terminators. */
  predicate IsSpace(c: char)
  {
    c == '\t' || c == '\n' || c == '\U{0B}' || c == '\U{0C}' || c == '\r' || c == ' '
    || c == '\U{A0}' || c == '\U{1680}' || ('\U{2000}' <= c <= '\U{200A}')
    || c == '\U{2028}' || c == '\U{2029}' || c == '\U{202F}' || c == '\U{205F}'
    || c == '\U{3000}' || c == '\U{FEFF}'
  }

  /** A character a normalised token may hold. */
  predicate IsTokenChar(c: char)
  {
    'a' <= c <= 'z' || '0' <= c <= '9' || c == '_'
  }

  /** `.replace(/[^\w\s]/g, " ")`: what is left is only word characters and
      whitespace, each word or whitespace character stays where it was, and
      every other character becomes whitespace. */
  function Depunctuate(s: string): (r: string)
    ensures |r| == |s|
    ensures forall i :: 0 <= i < |r| ==> IsWordChar(r[i]) || IsSpace(r[i])
    ensures forall i :: 0 <= i < |s| && (IsWordChar(s[i]) || IsSpace(s[i])) ==> r[i] == s[i]
    ensures forall i :: 0 <= i < |s| && !IsWordChar(s[i]) && !IsSpace(s[i]) ==> IsSpace(r[i])
  {
    seq(|s|, i requires 0 <= i < |s| => if IsWordChar(s[i]) || IsSpace(s[i]) then s[i] else ' ')
  }

  /** `.split(/\s+/)`, except that a run of several whitespace characters
      yields empty pieces between them; the `.filter(Boolean)` that follows
      removes exactly those, so the tokens are the same. */
  function SplitOnSpace(s: string): (pieces: seq<string>)
    ensures |pieces| >= 1
  {
    if s == [] then [""]
    else
      var rest := SplitOnSpace(s[..|s| - 1]);
      var c := s[|s| - 1];
      if IsSpace(c) then rest + [""]
      else rest[..|rest| - 1] + [rest[|rest| - 1] + [c]]
  }

  /** The pieces hold no whitespace, and only characters of the text. */
  lemma {:induction false} SplitPieces(s: string)
    ensures forall k, i :: 0 <= k < |SplitOnSpace(s)| && 0 <= i < |SplitOnSpace(s)[k]| ==>
      !IsSpace(SplitOnSpace(s)[k][i]) && SplitOnSpace(s)[k][i] in s
  {
    if s != [] {
      var init := s[..|s| - 1];
      SplitPieces(init);
      assert forall x :: x in init ==> x in s;
    }
  }

  /** `.filter(Boolean)` on strings: keep the non-empty ones, in order. */
  function NonEmpty(ws: seq<string>): (r: seq<string>)
    ensures |r| <= |ws|
    ensures forall k :: 0 <= k < |r| ==> |r[k]| > 0
  {
    if ws == [] then []
    else
      var rest := NonEmpty(ws[..|ws| - 1]);
      if |ws[|ws| - 1]| > 0 then rest + [ws[|ws| - 1]] else rest
  }

  /** Filtering keeps only strings that were there. */
  lemma {:induction false} NonEmptyKeeps(ws: seq<string>)
    ensures forall k :: 0 <= k < |NonEmpty(ws)| ==> NonEmpty(ws)[k] in ws
  {
    if ws != [] {
      var init := ws[..|ws| - 1];
      NonEmptyKeeps(init);
      assert forall x :: x in init ==> x in ws;
    }
  }

  /** Filtering drops no non-empty string. */
  lemma {:induction false} NonEmptyKeepsAll(ws: seq<string>)
    ensures forall w :: w in ws && |w| > 0 ==> w in NonEmpty(ws)
  {
    if ws != [] {
      var init := ws[..|ws| - 1];
      var last := ws[|ws| - 1];
      NonEmptyKeepsAll(init);
      forall w | w in ws && |w| > 0
        ensures w in NonEmpty(ws)
      {
        if w != last {
          assert w in init by {
            var k :| 0 <= k < |ws| && ws[k] == w;
            assert init[k] == w;
          }
        }
      }
    }
  }

  /** The inner `normalize`: lower-case, turn every character that is neither
      a word character nor whitespace into a space, split on whitespace and
      drop the empty pieces. Every token is non-empty and made of lower-case
      letters, digits and underscores. */
  function Normalize(s: string): (ws: seq<string>)
    ensures forall k :: 0 <= k < |ws| ==> |ws[k]| > 0
    ensures forall k, i :: 0 <= k < |ws| && 0 <= i < |ws[k]| ==> IsTokenChar(ws[k][i])
  {
    var lowered := Text.Lower(s);
    var spaced := Depunctuate(lowered);
    Text.LowerFolds(s);
    assert forall x :: x in spaced ==> IsSpace(x) || IsTokenChar(x);
    SplitPieces(spaced);
    NonEmptyKeeps(SplitOnSpace(spaced));
    NonEmpty(SplitOnSpace(spaced))
  }

  /** The number of positions of `wb` whose token is in `wa`. */
  function CountIn(wa: set<string>, wb: seq<string>): (n: nat)
    ensures n <= |wb|
  {
    if wb == [] then 0
    else CountIn(wa, wb[..|wb| - 1]) + (if wb[|wb| - 1] in wa then 1 else 0)
  }

  function TokenSet(s: string): set<string>
  {
    set w | w in Normalize(s)
  }

  /** The value `simpleMostSimilar(a, b)` returns, as an exact rational: 0
      when either argument is falsy or `b` has no token, otherwise the share
      of `b`'s tokens that occur in `a`, always between 0 and 1. */
  function Score(a: Option<string>, b: Option<string>): (r: real)
    ensures 0.0 <= r <= 1.0
    ensures !Text.Truthy(a) || !Text.Truthy(b) ==> r == 0.0
    ensures Text.Truthy(a) && Text.Truthy(b) && |Normalize(b.value)| == 0 ==> r == 0.0
  {
    if !Text.Truthy(a) || !Text.Truthy(b) then 0.0
    else
      var wb := Normalize(b.value);
      if |wb| > 0 then
        var n := CountIn(TokenSet(a.value), wb);
        Ratio(n, |wb|);
        (n as real) / (|wb| as real)
      else 0.0
  }

  /** A count over a positive total, as a real: in [0, 1], 0 exactly for a zero
      count and 1 exactly for a full one. */
  lemma {:induction false} Ratio(n: nat, d: nat)
    requires n <= d && d > 0
    ensures 0.0 <= (n as real) / (d as real) <= 1.0
    ensures (n as real) / (d as real) == 0.0 <==> n == 0
    ensures (n as real) / (d as real) == 1.0 <==> n == d
  {
    var q := (n as real) / (d as real);
    assert q * (d as real) == n as real;
  }

  /** `simpleMostSimilar(a, b)`: the match-count loop over `b`'s tokens. */
  method SimpleMostSimilar(a: Option<string>, b: Option<string>) returns (score: real)
    ensures score == Score(a, b)
  {
    if !Text.Truthy(a) || !Text.Truthy(b) {
      return 0.0;
    }
    var wa := set w | w in Normalize(a.value);
    var wb := Normalize(b.value);
    var matches := 0;
    for i := 0 to |wb|
      invariant matches == CountIn(wa, wb[..i])
    {
      assert wb[..i + 1][..i] == wb[..i];
      if wb[i] in wa {
        matches := matches + 1;
      }
    }
    assert wb[..|wb|] == wb;
    score := if |wb| > 0 then (matches as real) / (|wb| as real) else 0.0;
  }

  /** Every position of `wb` counts exactly when every token of `wb` is in `wa`. */
  lemma {:induction false} CountInAll(wa: set<string>, wb: seq<string>)
    ensures CountIn(wa, wb) == |wb| <==> forall k :: 0 <= k < |wb| ==> wb[k] in wa
  {
    if wb != [] {
      var init := wb[..|wb| - 1];
      CountInAll(wa, init);
      assert forall k :: 0 <= k < |init| ==> init[k] == wb[k];
    }
  }

  /** No position of `wb` counts exactly when no token of `wb` is in `wa`. */
  lemma {:induction false} CountInNone(wa: set<string>, wb: seq<string>)
    ensures CountIn(wa, wb) == 0 <==> forall k :: 0 <= k < |wb| ==> wb[k] !in wa
  {
    if wb != [] {
      var init := wb[..|wb| - 1];
      CountInNone(wa, init);
      assert forall k :: 0 <= k < |init| ==> init[k] == wb[k];
    }
  }

  /** The score is 1 exactly when both texts are truthy, `b` has a token and
      every token of `b` occurs in `a`. */
  lemma {:induction false} ScoreOneIff(a: Option<string>, b: Option<string>)
    ensures Score(a, b) == 1.0 <==>
      Text.Truthy(a) && Text.Truthy(b) && |Normalize(b.value)| > 0
      && forall k :: 0 <= k < |Normalize(b.value)| ==> Normalize(b.value)[k] in Normalize(a.value)
  {
    if Text.Truthy(a) && Text.Truthy(b) && |Normalize(b.value)| > 0 {
      var wb := Normalize(b.value);
      var n := CountIn(TokenSet(a.value), wb);
      CountInAll(TokenSet(a.value), wb);
      Ratio(n, |wb|);
      assert Score(a, b) == (n as real) / (|wb| as real);
    }
  }

  /** The score is 0 exactly when an argument is falsy or no token of `b`
      occurs in `a`. */
  lemma {:induction false} ScoreZeroIff(a: Option<string>, b: Option<string>)
    ensures Score(a, b) == 0.0 <==>
      !Text.Truthy(a) || !Text.Truthy(b)
      || forall k :: 0 <= k < |Normalize(b.value)| ==> Normalize(b.value)[k] !in Normalize(a.value)
  {
    if Text.Truthy(a) && Text.Truthy(b) && |Normalize(b.value)| > 0 {
      var wb := Normalize(b.value);
      var n := CountIn(TokenSet(a.value), wb);
      CountInNone(TokenSet(a.value), wb);
      Ratio(n, |wb|);
      assert Score(a, b) == (n as real) / (|wb| as real);
    }
  }

  /** A text with a token is fully similar to itself. */
  lemma {:induction false} SelfSimilarity(s: Option<string>)
    requires Text.Truthy(s) && |Normalize(s.value)| > 0
    ensures Score(s, s) == 1.0
  {
    ScoreOneIff(s, s);
  }

  /** `a` enters only through the set of its tokens, so repeating a token of
      `a` changes nothing. */
  lemma {:induction false} ScoreSeesTokenSetOfA(a1: string, a2: string, b: Option<string>)
    requires |a1| > 0 && |a2| > 0
    requires forall w :: w in Normalize(a1) <==> w in Normalize(a2)
    ensures Score(Some(a1), b) == Score(Some(a2), b)
  {
    assert TokenSet(a1) == TokenSet(a2);
  }

  // ---------------------------------------------------------------------
  // Case and punctuation
  // ---------------------------------------------------------------------

  /** A piece without whitespace splits into itself. */
  lemma {:induction false} SplitWord(w: string)
    requires forall i :: 0 <= i < |w| ==> !IsSpace(w[i])
    ensures SplitOnSpace(w) == [w]
  {
    if w != [] {
      SplitWord(w[..|w| - 1]);
      assert w[..|w| - 1] + [w[|w| - 1]] == w;
    }
  }

  /** Splitting at one whitespace character splits the two sides apart. */
  lemma {:induction false} SplitConcat(s: string, sp: char, w: string)
    requires IsSpace(sp)
    ensures SplitOnSpace(s + [sp] + w) == SplitOnSpace(s) + SplitOnSpace(w)
  {
    if w == [] {
      var x := s + [sp] + w;
      assert x[..|x| - 1] == s;
    } else {
      SplitConcat(s, sp, w[..|w| - 1]);
      SplitConcatStep(s, sp, w);
    }
  }

  /** The step of `SplitConcat` from `w` without its last character to `w`. */
  lemma {:induction false} SplitConcatStep(s: string, sp: char, w: string)
    requires IsSpace(sp) && w != []
    requires SplitOnSpace(s + [sp] + w[..|w| - 1]) == SplitOnSpace(s) + SplitOnSpace(w[..|w| - 1])
    ensures SplitOnSpace(s + [sp] + w) == SplitOnSpace(s) + SplitOnSpace(w)
  {
    var x := s + [sp] + w;
    assert x[..|x| - 1] == s + [sp] + w[..|w| - 1];
    assert x[|x| - 1] == w[|w| - 1];
    SplitExtend(x, w, SplitOnSpace(s), SplitOnSpace(w[..|w| - 1]));
  }

  /** Adding the same last character to two texts whose splits end alike
      keeps their splits ending alike. */
  lemma {:induction false} SplitExtend(x: string, w: string, front: seq<string>, back: seq<string>)
    requires x != [] && w != [] && x[|x| - 1] == w[|w| - 1]
    requires SplitOnSpace(x[..|x| - 1]) == front + back
    requires SplitOnSpace(w[..|w| - 1]) == back
    ensures SplitOnSpace(x) == front + SplitOnSpace(w)
  {
    SplitStep(x);
    SplitStep(w);
    var c := w[|w| - 1];
    if IsSpace(c) {
      AppendEmptyPiece(front, back);
    } else {
      ExtendLastPiece(front, back, c);
    }
  }

  /** One step of the split, from the end. */
  lemma {:induction false} SplitStep(t: string)
    requires t != []
    ensures var rest := SplitOnSpace(t[..|t| - 1]);
      SplitOnSpace(t) == if IsSpace(t[|t| - 1]) then rest + [""]
                         else rest[..|rest| - 1] + [rest[|rest| - 1] + [t[|t| - 1]]]
  {
  }

  lemma {:induction false} AppendEmptyPiece(front: seq<string>, back: seq<string>)
    ensures (front + back) + [""] == front + (back + [""])
  {
  }

  lemma {:induction false} ExtendLastPiece(front: seq<string>, back: seq<string>, c: char)
    requires |back| >= 1
    ensures var rest := front + back;
      rest[..|rest| - 1] + [rest[|rest| - 1] + [c]] == front + (back[..|back| - 1] + [back[|back| - 1] + [c]])
  {
    var rest := front + back;
    assert rest[..|rest| - 1] == front + back[..|back| - 1];
  }

  /** The split only looks at where whitespace is, not at which whitespace
      character stands there. */
  lemma {:induction false} SplitSeesOnlySpacePositions(d1: string, d2: string)
    requires |d1| == |d2|
    requires forall j :: 0 <= j < |d1| ==> d1[j] == d2[j] || (IsSpace(d1[j]) && IsSpace(d2[j]))
    ensures SplitOnSpace(d1) == SplitOnSpace(d2)
  {
    if d1 != [] {
      SplitSeesOnlySpacePositions(d1[..|d1| - 1], d2[..|d2| - 1]);
    }
  }

  /** Punctuation and whitespace are interchangeable separators: replacing one
      non-word character of a text by any other leaves its tokens as they
      were. */
  lemma {:induction false} SeparatorsInterchangeable(s: string, i: nat, c: char)
    requires i < |s| && !IsWordChar(s[i]) && !IsWordChar(c)
    ensures Normalize(s[i := c]) == Normalize(s)
  {
    var t := s[i := c];
    var d1 := Depunctuate(Text.Lower(s));
    var d2 := Depunctuate(Text.Lower(t));
    assert IsSpace(d1[i]) && IsSpace(d2[i]);
    SplitSeesOnlySpacePositions(d1, d2);
  }

  /** Tokens do not depend on letter case. */
  lemma {:induction false} CaseInsensitive(s: string)
    ensures Normalize(Text.Lower(s)) == Normalize(s)
  {
    Text.LowerFolds(s);
  }

  /** Filtering distributes over concatenation. */
  lemma {:induction false} NonEmptyConcat(xs: seq<string>, ys: seq<string>)
    ensures NonEmpty(xs + ys) == NonEmpty(xs) + NonEmpty(ys)
  {
    if ys == [] {
      assert xs + ys == xs;
    } else {
      var init := ys[..|ys| - 1];
      NonEmptyConcat(xs, init);
      assert (xs + ys)[..|xs + ys| - 1] == xs + init;
      var last := ys[|ys| - 1];
      if |last| > 0 {
        AppendOne(NonEmpty(xs), NonEmpty(init), last);
      }
    }
  }

  /** A single string is kept exactly when it is non-empty; with
      `NonEmptyConcat` this fixes the filter on every list: the non-empty
      strings, each once per occurrence, in their order. */
  lemma {:induction false} NonEmptyOne(w: string)
    ensures NonEmpty([w]) == if |w| > 0 then [w] else []
  {
    assert [w][..0] == [];
  }

  lemma {:induction false} AppendOne(front: seq<string>, back: seq<string>, w: string)
    ensures (front + back) + [w] == front + (back + [w])
  {
  }

  lemma {:induction false} PrepareConcat(s: string, t: string)
    ensures Depunctuate(Text.Lower(s + [' '] + t)) == Depunctuate(Text.Lower(s)) + [' '] + Depunctuate(Text.Lower(t))
  {
    var u := s + [' '] + t;
    var lhs := Depunctuate(Text.Lower(u));
    var rhs := Depunctuate(Text.Lower(s)) + [' '] + Depunctuate(Text.Lower(t));
    assert |lhs| == |rhs|;
    forall i | 0 <= i < |lhs|
      ensures lhs[i] == rhs[i]
    {
      if i < |s| {
        assert u[i] == s[i];
      } else if i > |s| {
        assert u[i] == t[i - |s| - 1];
      }
    }
  }

  /** The tokens of two texts joined by a space are the tokens of the first
      followed by those of the second. */
  lemma {:induction false} NormalizeConcat(s: string, t: string)
    ensures Normalize(s + [' '] + t) == Normalize(s) + Normalize(t)
  {
    PrepareConcat(s, t);
    var ds, dt := Depunctuate(Text.Lower(s)), Depunctuate(Text.Lower(t));
    SplitConcat(ds, ' ', dt);
    NonEmptyConcat(SplitOnSpace(ds), SplitOnSpace(dt));
  }

  /** A non-empty run of token characters is one token. */
  lemma {:induction false} SingleToken(w: string)
    requires |w| > 0 && forall i :: 0 <= i < |w| ==> IsTokenChar(w[i])
    ensures Normalize(w) == [w]
  {
    assert Text.Lower(w) == w;
    assert Depunctuate(w) == w;
    SplitWord(w);
    assert NonEmpty([w]) == [w] by {
      assert [w][..0] == [];
    }
  }

  /** A word followed by a punctuation mark, in any letter case, has the
      lower-cased word as its only token, as the word alone does: `"Hello,"`
      and `"hello"` give the same token. */
  lemma {:induction false} PunctuatedWord(w: string, p: char)
    requires IsToken(Text.Lower(w)) && !IsWordChar(p)
    ensures Normalize(w + [p]) == [Text.Lower(w)]
    ensures Normalize(Text.Lower(w)) == [Text.Lower(w)]
  {
    var lw := Text.Lower(w);
    SingleToken(lw);
    CaseInsensitive(w);
    var s := w + [p];
    SeparatorsInterchangeable(s, |w|, ' ');
    assert s[|w| := ' '] == w + [' '] + "";
    NormalizeConcat(w, "");
    NoTokens();
  }

  lemma {:induction false} NoTokens()
    ensures Normalize("") == []
  {
    assert Text.Lower("") == "";
    assert Depunctuate("") == "";
    assert NonEmpty([""]) == [] by {
      assert [""][..0] == [];
    }
  }

  /** A non-empty run of token characters. */
  predicate IsToken(w: string)
  {
    |w| > 0 && forall i :: 0 <= i < |w| ==> IsTokenChar(w[i])
  }

  lemma {:induction false} TwoTokens(u: string, v: string)
    requires IsToken(u) && IsToken(v)
    ensures Normalize(u + [' '] + v) == [u, v]
  {
    SingleToken(u);
    SingleToken(v);
    NormalizeConcat(u, v);
    assert [u] + [v] == [u, v];
  }

  lemma {:induction false} ThreeTokens(u: string, v: string, w: string)
    requires IsToken(u) && IsToken(v) && IsToken(w)
    ensures Normalize(u + [' '] + (v + [' '] + w)) == [u, v, w]
  {
    SingleToken(u);
    TwoTokens(v, w);
    NormalizeConcat(u, v + [' '] + w);
    assert [u] + [v, w] == [u, v, w];
  }

  lemma {:induction false} TokenSetOfOne(u: string)
    requires IsToken(u)
    ensures TokenSet(u) == {u}
  {
    SingleToken(u);
  }

  lemma {:induction false} TokenSetOfTwo(u: string, v: string)
    requires IsToken(u) && IsToken(v)
    ensures TokenSet(u + [' '] + v) == {u, v}
  {
    TwoTokens(u, v);
  }

  lemma {:induction false} CountInOne(wa: set<string>, u: string)
    ensures CountIn(wa, [u]) == if u in wa then 1 else 0
  {
    assert [u][..0] == [];
  }

  lemma {:induction false} CountInTwo(wa: set<string>, u: string, v: string)
    ensures CountIn(wa, [u, v]) == (if u in wa then 1 else 0) + (if v in wa then 1 else 0)
  {
    assert [u, v][..1] == [u];
    CountInOne(wa, u);
  }

  lemma {:induction false} CountInThree(wa: set<string>, u: string, v: string, w: string)
    ensures CountIn(wa, [u, v, w]) == CountIn(wa, [u, v]) + (if w in wa then 1 else 0)
  {
    assert [u, v, w][..2] == [u, v];
  }

  /** The score of two non-empty texts from their token set, token list and
      match count. */
  lemma {:induction false} ScoreFrom(a: string, b: string, wa: set<string>, wb: seq<string>, n: nat)
    requires |a| > 0 && |b| > 0 && TokenSet(a) == wa && Normalize(b) == wb && |wb| > 0
    requires CountIn(wa, wb) == n
    ensures Score(Some(a), Some(b)) == (n as real) / (|wb| as real)
  {
  }

  /** The score is the share of the SECOND text's tokens found in the first,
      so swapping the arguments can change it: for two different tokens,
      `"u v"` covers all of `"u"`, but `"u"` covers half of `"u v"`. */
  lemma {:induction false} NotSymmetric(u: string, v: string)
    requires IsToken(u) && IsToken(v) && u != v
    ensures Score(Some(u + [' '] + v), Some(u)) == 1.0
    ensures Score(Some(u), Some(u + [' '] + v)) == 0.5
  {
    WiderCoversNarrower(u, v);
    NarrowerCoversHalf(u, v);
  }

  lemma {:induction false} WiderCoversNarrower(u: string, v: string)
    requires IsToken(u) && IsToken(v)
    ensures Score(Some(u + [' '] + v), Some(u)) == 1.0
  {
    var uv := u + [' '] + v;
    SingleToken(u);
    TwoTokens(u, v);
    assert Normalize(u)[0] in Normalize(uv);
    ScoreOneIff(Some(uv), Some(u));
  }

  lemma {:induction false} NarrowerCoversHalf(u: string, v: string)
    requires IsToken(u) && IsToken(v) && u != v
    ensures Score(Some(u), Some(u + [' '] + v)) == 0.5
  {
    TwoTokens(u, v);
    TokenSetOfOne(u);
    CountInTwo({u}, u, v);
    ScoreFrom(u, u + [' '] + v, {u}, [u, v], 1);
    Half();
  }

  lemma {:induction false} Half()
    ensures (1 as real) / (2 as real) == 0.5
  {
  }

  /** Each repetition of a token in the second text counts again: for two
      different tokens, `"u"` against `"u u v"` scores 2/3. */
  lemma {:induction false} RepeatsInSecondCount(u: string, v: string)
    requires IsToken(u) && IsToken(v) && u != v
    ensures Score(Some(u), Some(u + [' '] + (u + [' '] + v))) * 3.0 == 2.0
  {
    var uuv := u + [' '] + (u + [' '] + v);
    ThreeTokens(u, u, v);
    TokenSetOfOne(u);
    CountInTwo({u}, u, u);
    CountInThree({u}, u, u, v);
    ScoreFrom(u, uuv, {u}, [u, u, v], 2);
    TwoThirds(Score(Some(u), Some(uuv)));
  }

  lemma {:induction false} TwoThirds(r: real)
    requires r == (2 as real) / (3 as real)
    ensures r * 3.0 == 2.0
  {
  }
}
