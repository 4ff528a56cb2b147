/** The keyword tokenizer and the two overlap scores of
    src/lib/rag/tokenizer.ts. */
module Tokenizer {
  import opened Text
  import opened Seqs

  // ---------------------------------------------------------------------
  // Cleaning: lower-case, then every character that is not `\w`, `\s` or a
  // CJK ideograph becomes a space
  // ---------------------------------------------------------------------

  function CleanChar(c: char): char {
    var l := ToLower(c);
    if IsWordChar(l) || IsSpace(l) || IsCJK(l) then l else ' '
  }

  /** `text.toLowerCase().replace(/[^\w\s一-鿿]/g, ' ')`. */
  function Clean(text: string): (r: string)
    ensures |r| == |text|
  {
    seq(|text|, i requires 0 <= i < |text| => CleanChar(text[i]))
  }

  /** The characters a cleaned text can hold. */
  predicate IsCleanChar(c: char) {
    ('a' <= c <= 'z') || IsDigit(c) || c == '_' || IsSpace(c) || IsCJK(c)
  }

  /** The characters a token can hold. */
  predicate IsTokenChar(c: char) {
    ('a' <= c <= 'z') || IsDigit(c) || c == '_' || IsCJK(c)
  }

  lemma CleanChars(text: string)
    ensures forall i | 0 <= i < |text| :: IsCleanChar(Clean(text)[i])
    ensures forall c | c in Clean(text) :: IsCleanChar(c)
  {
  }

  // ---------------------------------------------------------------------
  // The three token classes
  // ---------------------------------------------------------------------

  /** `/^[a-z0-9]+$/i.test(w) && w.length >= 2`. */
  predicate IsEnglishWord(w: string) {
    |w| >= 2 && forall i | 0 <= i < |w| :: IsAsciiLetter(w[i]) || IsDigit(w[i])
  }

  predicate HasCJK(w: string) {
    exists i | 0 <= i < |w| :: IsCJK(w[i])
  }

  /** `/[一-鿿]/.test(w) && w.length >= 2`. */
  predicate IsCjkTerm(w: string) {
    |w| >= 2 && HasCJK(w)
  }

  /** `cleanText.match(/[一-鿿]/g) || []`: every ideograph, as a
      one-character string, in text order. */
  function CjkChars(s: string): (r: seq<string>)
    ensures forall i | 0 <= i < |r| :: |r[i]| == 1 && IsCJK(r[i][0]) && r[i][0] in s
    ensures forall i | 0 <= i < |s| && IsCJK(s[i]) :: [s[i]] in r
    decreases |s|
  {
    if s == [] then []
    else (if IsCJK(s[0]) then [[s[0]]] else []) + CjkChars(s[1..])
  }

  /** `tokenize`: English words, then single ideographs, then
      whitespace-delimited CJK terms, de-duplicated in order of first
      occurrence. */
  function Tokenize(text: string): (r: seq<string>)
    ensures NoDuplicates(r)
  {
    if text == [] then []
    else
      var clean := Clean(text);
      var pieces := Pieces(clean);
      Dedup(Filter(IsEnglishWord, pieces) + CjkChars(clean) + Filter(IsCjkTerm, pieces))
  }

  /** The independent description of a token of `text`, in terms of the
      cleaned text: an ASCII alphanumeric whitespace-delimited piece of
      length >= 2, a single ideograph of the text, or a whitespace-delimited
      piece of length >= 2 that holds an ideograph. */
  predicate IsTokenOf(t: string, text: string) {
    var clean := Clean(text);
    || (IsPiece(t, clean) && IsEnglishWord(t))
    || (|t| == 1 && IsCJK(t[0]) && t[0] in clean)
    || (IsPiece(t, clean) && IsCjkTerm(t))
  }

  /** The tokens of `text` are exactly the strings of the three classes;
      empty text has none. */
  lemma TokenizeSpec(text: string, t: string)
    ensures t in Tokenize(text) <==> text != [] && IsTokenOf(t, text)
  {
    if text != [] {
      var clean := Clean(text);
      var pieces := Pieces(clean);
      var e := Filter(IsEnglishWord, pieces);
      var c := CjkChars(clean);
      var w := Filter(IsCjkTerm, pieces);
      PiecesSpec(clean, t);
      DedupMembers(e + c + w);
      FilterMembers(IsEnglishWord, pieces);
      FilterMembers(IsCjkTerm, pieces);
      CjkCharsMembers(clean);
    }
  }

  /** Text made of whitespace alone has no tokens. */
  lemma TokenizeBlank(text: string)
    requires AllSpace(text)
    ensures Tokenize(text) == []
  {
    var clean := Clean(text);
    assert AllSpace(clean);
    var r := Tokenize(text);
    forall t ensures t !in r {
      TokenizeSpec(text, t);
      forall i, j | 0 <= i < j <= |clean| ensures !IsPieceAt(clean, i, j) {
        SliceNoSpace(clean, i, j, i);
      }
    }
  }

  lemma CjkCharsMembers(s: string)
    ensures forall t :: t in CjkChars(s) <==> |t| == 1 && IsCJK(t[0]) && t[0] in s
  {
    var r := CjkChars(s);
    forall t ensures t in r <==> |t| == 1 && IsCJK(t[0]) && t[0] in s {
      if t in r {
        var k :| 0 <= k < |r| && r[k] == t;
      }
      if |t| == 1 && IsCJK(t[0]) && t[0] in s {
        var k :| 0 <= k < |s| && s[k] == t[0];
        assert [s[k]] == t;
      }
    }
  }

  /** Every token is non-empty and made only of lower-case ASCII letters,
      digits, `_` and CJK ideographs; in particular it holds no whitespace. */
  lemma TokenChars(text: string, t: string)
    requires t in Tokenize(text)
    ensures t != []
    ensures forall i | 0 <= i < |t| :: IsTokenChar(t[i]) && !IsSpace(t[i])
  {
    TokenizeSpec(text, t);
    var clean := Clean(text);
    CleanChars(text);
    if IsPiece(t, clean) {
      PieceChars(t, clean);
      forall i | 0 <= i < |t| ensures IsTokenChar(t[i]) {
        assert t[i] in clean;
      }
    }
  }

  /** Every ideograph of the input is a one-character token. */
  lemma CjkCoverage(text: string, i: nat)
    requires i < |text| && IsCJK(text[i])
    ensures [text[i]] in Tokenize(text)
  {
    var clean := Clean(text);
    assert clean[i] == text[i];
    TokenizeSpec(text, [text[i]]);
  }

  // ---------------------------------------------------------------------
  // calculateKeywordScore
  // ---------------------------------------------------------------------

  /** A keyword longer than one UTF-16 unit weighs 2, any other 1. */
  function Weight(k: string): (w: nat)
    ensures w == 1 || w == 2
  {
    if Utf16Length(k) > 1 then 2 else 1
  }

  /** `totalPossibleMatchScore`. */
  function TotalWeight(q: seq<string>): (n: nat)
    ensures n >= |q|
    decreases |q|
  {
    if q == [] then 0 else Weight(q[0]) + TotalWeight(q[1..])
  }

  /** `matchCount`: duplicates in the query count every time. */
  function MatchedWeight(q: seq<string>, keys: set<string>): (n: nat)
    ensures n <= TotalWeight(q)
    decreases |q|
  {
    if q == [] then 0
    else (if q[0] in keys then Weight(q[0]) else 0) + MatchedWeight(q[1..], keys)
  }

  function KeySet(keywords: seq<string>): set<string> {
    set k | k in keywords
  }

  /** `calculateKeywordScore`, as an exact rational. */
  function KeywordScore(queryKeywords: seq<string>, chunkKeywords: seq<string>): real {
    if |queryKeywords| == 0 || |chunkKeywords| == 0 then 0.0
    else (MatchedWeight(queryKeywords, KeySet(chunkKeywords)) as real)
         / (TotalWeight(queryKeywords) as real)
  }

  lemma {:induction false} MatchedAll(q: seq<string>, keys: set<string>)
    ensures MatchedWeight(q, keys) == TotalWeight(q) <==> forall i | 0 <= i < |q| :: q[i] in keys
    decreases |q|
  {
    if q != [] {
      MatchedAll(q[1..], keys);
      assert forall i | 1 <= i < |q| :: q[i] == q[1..][i - 1];
    }
  }

  lemma {:induction false} MatchedMonotone(q: seq<string>, a: set<string>, b: set<string>)
    requires a <= b
    ensures MatchedWeight(q, a) <= MatchedWeight(q, b)
    decreases |q|
  {
    if q != [] {
      MatchedMonotone(q[1..], a, b);
    }
  }

  // Real arithmetic, one non-linear step per lemma.

  lemma MulLe(a: real, b: real, c: real)
    requires a <= b && c >= 0.0
    ensures a * c <= b * c
  {
  }

  lemma CancelPos(x: real, y: real, c: real)
    requires c > 0.0 && x * c <= y * c
    ensures x <= y
  {
  }

  lemma DivMul(x: real, c: real)
    requires c != 0.0
    ensures (x / c) * c == x
  {
  }

  lemma MulAdd(a: real, x: real, y: real)
    ensures a * (x + y) == a * x + a * y
  {
  }

  /** A weight ratio lies in [0, 1] and is 1 exactly when the weights agree. */
  lemma RatioAtMostOne(m: nat, t: nat)
    requires 0 < t && m <= t
    ensures 0.0 <= (m as real) / (t as real) <= 1.0
    ensures (m as real) / (t as real) == 1.0 <==> m == t
  {
    var M, T := m as real, t as real;
    var a := M / T;
    DivMul(M, T);
    CancelPos(0.0, a, T);
    CancelPos(a, 1.0, T);
    if m == t {
      CancelPos(1.0, a, T);
    }
  }

  /** The keyword score is 0 when either list is empty and otherwise lies in
      [0, 1]; it is 1 exactly when both lists are non-empty and every query
      keyword is among the chunk's keywords. */
  lemma KeywordScoreRange(q: seq<string>, c: seq<string>)
    ensures |q| == 0 || |c| == 0 ==> KeywordScore(q, c) == 0.0
    ensures 0.0 <= KeywordScore(q, c) <= 1.0
    ensures KeywordScore(q, c) == 1.0 <==>
              |q| > 0 && |c| > 0 && forall i | 0 <= i < |q| :: q[i] in c
  {
    if |q| > 0 && |c| > 0 {
      var m := MatchedWeight(q, KeySet(c));
      var t := TotalWeight(q);
      RatioAtMostOne(m, t);
      MatchedAll(q, KeySet(c));
    }
  }

  lemma RatioMonotone(m1: nat, m2: nat, t: nat)
    requires 0 < t && m1 <= m2
    ensures (m1 as real) / (t as real) <= (m2 as real) / (t as real)
  {
    var M1, M2, T := m1 as real, m2 as real, t as real;
    DivMul(M1, T);
    DivMul(M2, T);
    CancelPos(M1 / T, M2 / T, T);
  }

  /** Giving the chunk more keywords never lowers its score. */
  lemma KeywordScoreMonotone(q: seq<string>, c1: seq<string>, c2: seq<string>)
    requires forall i | 0 <= i < |c1| :: c1[i] in c2
    ensures KeywordScore(q, c1) <= KeywordScore(q, c2)
  {
    KeywordScoreRange(q, c2);
    if |q| > 0 && |c1| > 0 {
      assert c1[0] in c2;
      assert KeySet(c1) <= KeySet(c2);
      MatchedMonotone(q, KeySet(c1), KeySet(c2));
      RatioMonotone(MatchedWeight(q, KeySet(c1)), MatchedWeight(q, KeySet(c2)), TotalWeight(q));
    }
  }

  lemma {:induction false} WeightsOfSnoc(q: seq<string>, k: string, keys: set<string>)
    ensures TotalWeight(q + [k]) == TotalWeight(q) + Weight(k)
    ensures MatchedWeight(q + [k], keys) == MatchedWeight(q, keys) + (if k in keys then Weight(k) else 0)
    decreases |q|
  {
    if q != [] {
      assert (q + [k])[1..] == q[1..] + [k];
      WeightsOfSnoc(q[1..], k, keys);
    } else {
      assert [] + [k] == [k];
    }
  }

  lemma RatioGrows(m: nat, t: nat, w: nat)
    requires 0 < t && m <= t
    ensures (m as real) / (t as real) <= ((m + w) as real) / ((t + w) as real)
  {
    var M, T, W := m as real, t as real, w as real;
    var a, b := M / T, (M + W) / (T + W);
    DivMul(M, T);
    DivMul(M + W, T + W);
    CancelPos(a, 1.0, T);
    MulLe(a, 1.0, W);
    MulAdd(a, T, W);
    assert a * (T + W) <= b * (T + W);
    CancelPos(a, b, T + W);
  }

  lemma RatioShrinks(m: nat, t: nat, w: nat)
    requires 0 < t && m <= t
    ensures ((m as real) / ((t + w) as real)) <= (m as real) / (t as real)
  {
    var M, T, W := m as real, t as real, w as real;
    var a, b := M / (T + W), M / T;
    DivMul(M, T + W);
    DivMul(M, T);
    CancelPos(0.0, a, T + W);
    MulLe(0.0, a, W);
    MulAdd(a, T, W);
    CancelPos(a, b, T);
  }

  /** Adding a query keyword the chunk has never lowers the score; adding
      one it lacks never raises it. */
  lemma KeywordScoreQueryExtension(q: seq<string>, k: string, c: seq<string>)
    ensures k in c ==> KeywordScore(q, c) <= KeywordScore(q + [k], c)
    ensures k !in c ==> KeywordScore(q + [k], c) <= KeywordScore(q, c)
  {
    if |c| == 0 {
      KeywordScoreRange(q, c);
      KeywordScoreRange(q + [k], c);
      return;
    }
    WeightsOfSnoc(q, k, KeySet(c));
    var m := MatchedWeight(q, KeySet(c));
    var t := TotalWeight(q);
    var m' := MatchedWeight(q + [k], KeySet(c));
    var t' := TotalWeight(q + [k]);
    KeywordScoreRange(q + [k], c);
    assert KeywordScore(q + [k], c) == (m' as real) / (t' as real);
    assert k in c <==> k in KeySet(c);
    if |q| == 0 {
      assert m == 0 && t == 0;
    } else if k in c {
      assert KeywordScore(q, c) == (m as real) / (t as real);
      RatioGrows(m, t, Weight(k));
    } else {
      assert KeywordScore(q, c) == (m as real) / (t as real);
      RatioShrinks(m, t, Weight(k));
    }
  }

  /** A query whose keywords include another query's keywords can score
      lower against the same chunk: the score is normalised by the query's
      own weight. */
  lemma SupersetQueryCanScoreLower()
    ensures KeywordScore(["ab"], ["ab"]) == 1.0
    ensures KeywordScore(["ab", "cd"], ["ab"]) == 0.5
  {
    assert KeySet(["ab"]) == {"ab"};
    assert "cd" != "ab";
    assert MatchedWeight(["ab", "cd"], {"ab"}) == 2 by {
      assert ["ab", "cd"][1..] == ["cd"];
    }
    assert TotalWeight(["ab", "cd"]) == 4 by {
      assert ["ab", "cd"][1..] == ["cd"];
    }
  }

  // ---------------------------------------------------------------------
  // calculateOverlap
  // ---------------------------------------------------------------------

  /** `calculateOverlap`: the Jaccard index of the two keyword sets. */
  function Overlap(k1: seq<string>, k2: seq<string>): real {
    if |k1| == 0 || |k2| == 0 then 0.0
    else
      var s1, s2 := KeySet(k1), KeySet(k2);
      assert k1[0] in s1 + s2;
      (|s1 * s2| as real) / (|s1 + s2| as real)
  }

  lemma {:induction false} SubsetCardinality<T>(a: set<T>, b: set<T>)
    requires a <= b
    ensures |a| <= |b|
    ensures |a| == |b| ==> a == b
    decreases |a|
  {
    if a != {} {
      var x :| x in a;
      SubsetCardinality(a - {x}, b - {x});
      assert a == (a - {x}) + {x};
      assert b == (b - {x}) + {x};
      assert |a| == |a - {x}| + 1;
      assert |b| == |b - {x}| + 1;
    } else if |b| == 0 {
      assert b == {};
    }
  }

  /** The overlap is symmetric. */
  lemma OverlapSymmetric(k1: seq<string>, k2: seq<string>)
    ensures Overlap(k1, k2) == Overlap(k2, k1)
  {
    var s1, s2 := KeySet(k1), KeySet(k2);
    assert s1 * s2 == s2 * s1;
    assert s1 + s2 == s2 + s1;
  }

  /** The overlap is 0 when either list is empty, lies in [0, 1], and is 1
      exactly when both lists are non-empty and hold the same keywords. */
  lemma OverlapRange(k1: seq<string>, k2: seq<string>)
    ensures |k1| == 0 || |k2| == 0 ==> Overlap(k1, k2) == 0.0
    ensures 0.0 <= Overlap(k1, k2) <= 1.0
    ensures Overlap(k1, k2) == 1.0 <==> |k1| > 0 && |k2| > 0 && KeySet(k1) == KeySet(k2)
  {
    if |k1| > 0 && |k2| > 0 {
      var s1, s2 := KeySet(k1), KeySet(k2);
      assert k1[0] in s1 + s2;
      SubsetCardinality({k1[0]}, s1 + s2);
      SubsetCardinality(s1 * s2, s1 + s2);
      var i, u := |s1 * s2|, |s1 + s2|;
      RatioAtMostOne(i, u);
      if s1 == s2 {
        assert s1 * s2 == s1 + s2;
      }
      if i == u {
        assert s1 * s2 == s1 + s2;
        assert s1 == s2 by {
          assert forall x | x in s1 :: x in s1 * s2;
          assert forall x | x in s2 :: x in s1 * s2;
        }
      }
    }
  }
}
