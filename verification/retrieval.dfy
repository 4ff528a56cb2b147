/** Keyword retrieval over chunks (`retrieveTopK` and
    `retrieveTopKFromDocument` in src/lib/rag/retrieval.ts): score every
    chunk against the query's tokens, keep the scores at or above the
    threshold, sort them by score, highest first, keeping the input order
    among equal scores, and take the first `k`. */
module Retrieval {
  import opened Text
  import opened Seqs
  import opened Tokenizer
  import opened Chunking

  const DefaultK: int := 5
  const DefaultThreshold: real := 0.05

  /** `ScoredChunk`. */
  datatype Scored = Scored(chunk: Chunk, score: real)

  /** The score of a chunk against a query's keywords. */
  function ScoreOf(q: seq<string>, c: Chunk): real {
    KeywordScore(q, c.keywords)
  }

  /** `chunks.map(chunk => ({chunk, score}))`. */
  function ScoreAll(q: seq<string>, chunks: seq<Chunk>): (r: seq<Scored>)
    ensures |r| == |chunks|
    ensures forall i | 0 <= i < |r| :: r[i].chunk == chunks[i] && r[i].score == ScoreOf(q, chunks[i])
    decreases |chunks|
  {
    if chunks == [] then [] else [Scored(chunks[0], ScoreOf(q, chunks[0]))] + ScoreAll(q, chunks[1..])
  }

  /** The test `sc.score >= threshold`. */
  function AtLeast(threshold: real): Scored -> bool {
    (x: Scored) => x.score >= threshold
  }

  /** The chunks of a scored list, in order. */
  function ChunksOf(s: seq<Scored>): (r: seq<Chunk>)
    ensures |r| == |s|
    ensures forall i | 0 <= i < |s| :: r[i] == s[i].chunk
    decreases |s|
  {
    if s == [] then [] else [s[0].chunk] + ChunksOf(s[1..])
  }

  // ---------------------------------------------------------------------
  // The stable sort `filteredChunks.sort((a, b) => b.score - a.score)`
  // ---------------------------------------------------------------------

  predicate SortedDesc(s: seq<Scored>) {
    forall i, j | 0 <= i < j < |s| :: s[i].score >= s[j].score
  }

  /** Put `x` in front of the first element that does not score higher. */
  function Insert(x: Scored, s: seq<Scored>): (r: seq<Scored>)
    ensures |r| == |s| + 1
    decreases |s|
  {
    if s == [] || s[0].score <= x.score then [x] + s
    else [s[0]] + Insert(x, s[1..])
  }

  /** Insertion sort, inserting each element in front of the sorted rest: an
      element goes before every later one of equal score, so the sort is
      stable. */
  function SortDesc(s: seq<Scored>): (r: seq<Scored>)
    ensures |r| == |s|
    decreases |s|
  {
    if s == [] then [] else Insert(s[0], SortDesc(s[1..]))
  }

  lemma {:induction false} InsertSorted(x: Scored, s: seq<Scored>)
    requires SortedDesc(s)
    ensures SortedDesc(Insert(x, s))
    ensures Insert(x, s)[0] == x || (s != [] && Insert(x, s)[0] == s[0])
    decreases |s|
  {
    if s != [] && s[0].score > x.score {
      InsertSorted(x, s[1..]);
      var t := Insert(x, s[1..]);
      assert forall j | 0 <= j < |t| :: t[j] == x || t[j] in s[1..] by {
        InsertMembers(x, s[1..]);
      }
    }
  }

  lemma {:induction false} InsertMembers(x: Scored, s: seq<Scored>)
    ensures forall j | 0 <= j < |Insert(x, s)| :: Insert(x, s)[j] == x || Insert(x, s)[j] in s
    ensures multiset(Insert(x, s)) == multiset{x} + multiset(s)
    decreases |s|
  {
    if s != [] && s[0].score > x.score {
      InsertMembers(x, s[1..]);
      assert s == [s[0]] + s[1..];
      var t := Insert(x, s[1..]);
      assert forall j | 1 <= j < |t| + 1 :: Insert(x, s)[j] == t[j - 1];
    }
  }

  /** The sort returns its input reordered, highest score first. */
  lemma {:induction false} SortDescSpec(s: seq<Scored>)
    ensures SortedDesc(SortDesc(s))
    ensures multiset(SortDesc(s)) == multiset(s)
    decreases |s|
  {
    if s != [] {
      SortDescSpec(s[1..]);
      InsertSorted(s[0], SortDesc(s[1..]));
      InsertMembers(s[0], SortDesc(s[1..]));
      assert s == [s[0]] + s[1..];
    }
  }

  /** The test `sc.score === v`. */
  function ScoreIs(v: real): Scored -> bool {
    (x: Scored) => x.score == v
  }

  lemma {:induction false} FilterInsert(v: real, x: Scored, s: seq<Scored>)
    ensures Filter(ScoreIs(v), Insert(x, s)) == (if x.score == v then [x] else []) + Filter(ScoreIs(v), s)
    decreases |s|
  {
    var f := ScoreIs(v);
    var xs := if x.score == v then [x] else [];
    if s == [] || s[0].score <= x.score {
      assert ([x] + s)[0] == x && ([x] + s)[1..] == s;
    } else {
      FilterInsert(v, x, s[1..]);
      var t := Insert(x, s[1..]);
      assert ([s[0]] + t)[0] == s[0] && ([s[0]] + t)[1..] == t;
      if x.score == v {
        assert !f(s[0]);
        assert Filter(f, s) == Filter(f, s[1..]);
      } else {
        AppendEmpty(Filter(f, t));
        AppendEmpty(Filter(f, s[1..]));
        AppendAssoc(if f(s[0]) then [s[0]] else [], xs, Filter(f, s[1..]));
      }
    }
  }

  /** The sort is stable: for every score value, the elements with that
      score come out in the order they went in. */
  lemma {:induction false} SortDescStable(v: real, s: seq<Scored>)
    ensures Filter(ScoreIs(v), SortDesc(s)) == Filter(ScoreIs(v), s)
    decreases |s|
  {
    if s != [] {
      SortDescStable(v, s[1..]);
      FilterInsert(v, s[0], SortDesc(s[1..]));
    }
  }

  lemma {:induction false} InsertChunks(x: Scored, s: seq<Scored>)
    ensures multiset(ChunksOf(Insert(x, s))) == multiset{x.chunk} + multiset(ChunksOf(s))
    decreases |s|
  {
    if s == [] || s[0].score <= x.score {
      InsertChunksFront(x, s);
    } else {
      InsertChunks(x, s[1..]);
      InsertChunksBehind(x, s);
    }
  }

  lemma InsertChunksFront(x: Scored, s: seq<Scored>)
    requires s == [] || s[0].score <= x.score
    ensures multiset(ChunksOf(Insert(x, s))) == multiset{x.chunk} + multiset(ChunksOf(s))
  {
    ChunksOfCons(x, s);
    MultisetCons(x.chunk, ChunksOf(s));
  }

  lemma InsertChunksBehind(x: Scored, s: seq<Scored>)
    requires s != [] && s[0].score > x.score
    requires multiset(ChunksOf(Insert(x, s[1..]))) == multiset{x.chunk} + multiset(ChunksOf(s[1..]))
    ensures multiset(ChunksOf(Insert(x, s))) == multiset{x.chunk} + multiset(ChunksOf(s))
  {
    var t := Insert(x, s[1..]);
    ChunksOfCons(s[0], t);
    ConsSwap(ChunksOf(Insert(x, s)), ChunksOf(s), s[0].chunk, ChunksOf(t), ChunksOf(s[1..]), x.chunk);
  }

  /** Putting the same element in front of both sides keeps `t` equal to
      `s` plus `x`, as multisets. */
  lemma ConsSwap<T>(ta: seq<T>, sa: seq<T>, a: T, t: seq<T>, s: seq<T>, x: T)
    requires ta == [a] + t && sa == [a] + s
    requires multiset(t) == multiset{x} + multiset(s)
    ensures multiset(ta) == multiset{x} + multiset(sa)
  {
    MultisetCons(a, t);
    MultisetCons(a, s);
    MultisetSwap(a, x, multiset(s));
  }

  lemma ChunksOfCons(x: Scored, s: seq<Scored>)
    ensures ChunksOf([x] + s) == [x.chunk] + ChunksOf(s)
  {
    assert ([x] + s)[1..] == s;
  }

  /** Sorting moves chunks around but neither adds nor drops any. */
  lemma {:induction false} SortChunks(s: seq<Scored>)
    ensures multiset(ChunksOf(SortDesc(s))) == multiset(ChunksOf(s))
    decreases |s|
  {
    if s != [] {
      SortChunks(s[1..]);
      InsertChunks(s[0], SortDesc(s[1..]));
      ChunksOfAppend([s[0]], s[1..]);
      assert [s[0]] + s[1..] == s;
    }
  }

  lemma {:induction false} SortMembers(s: seq<Scored>)
    ensures forall i | 0 <= i < |SortDesc(s)| :: SortDesc(s)[i] in s
    decreases |s|
  {
    if s != [] {
      SortMembers(s[1..]);
      InsertMembers(s[0], SortDesc(s[1..]));
    }
  }

  lemma {:induction false} ChunksOfAppend(a: seq<Scored>, b: seq<Scored>)
    ensures ChunksOf(a + b) == ChunksOf(a) + ChunksOf(b)
    decreases |a|
  {
    if a == [] {
      assert a + b == b;
    } else {
      assert (a + b)[1..] == a[1..] + b;
      ChunksOfAppend(a[1..], b);
      AppendAssoc([a[0].chunk], ChunksOf(a[1..]), ChunksOf(b));
    }
  }

  // ---------------------------------------------------------------------
  // retrieveTopK
  // ---------------------------------------------------------------------

  /** The scored chunks that pass the threshold, best first. */
  function Ranked(q: seq<string>, chunks: seq<Chunk>, threshold: real): seq<Scored> {
    SortDesc(Filter(AtLeast(threshold), ScoreAll(q, chunks)))
  }

  /** `retrieveTopK(query, chunks, k, threshold)`. */
  function RetrieveTopK(query: string, chunks: seq<Chunk>, k: int, threshold: real): seq<Chunk> {
    if query == [] || chunks == [] then []
    else
      var q := Tokenize(query);
      if q == [] then [] else ChunksOf(Take(Ranked(q, chunks, threshold), k))
  }

  /** The chunk test `score >= threshold`, for a reference count. */
  function Passes(q: seq<string>, threshold: real): Chunk -> bool {
    (c: Chunk) => ScoreOf(q, c) >= threshold
  }

  lemma {:induction false} PassingChunks(q: seq<string>, chunks: seq<Chunk>, threshold: real)
    ensures ChunksOf(Filter(AtLeast(threshold), ScoreAll(q, chunks))) == Filter(Passes(q, threshold), chunks)
    decreases |chunks|
  {
    if chunks != [] {
      PassingChunks(q, chunks[1..], threshold);
      var s := ScoreAll(q, chunks);
      assert s[1..] == ScoreAll(q, chunks[1..]);
      var x := s[0];
      if x.score >= threshold {
        ChunksOfAppend([x], Filter(AtLeast(threshold), s[1..]));
      } else {
        assert Filter(AtLeast(threshold), s) == Filter(AtLeast(threshold), s[1..]);
      }
    }
  }

  /** Every entry carries its chunk's score, and that score passes. */
  predicate Consistent(q: seq<string>, threshold: real, s: seq<Scored>) {
    forall i | 0 <= i < |s| :: s[i].score == ScoreOf(q, s[i].chunk) && s[i].score >= threshold
  }

  lemma PassingConsistent(q: seq<string>, chunks: seq<Chunk>, threshold: real)
    ensures Consistent(q, threshold, Filter(AtLeast(threshold), ScoreAll(q, chunks)))
  {
    var all := ScoreAll(q, chunks);
    var p := Filter(AtLeast(threshold), all);
    forall i | 0 <= i < |p| ensures p[i].score == ScoreOf(q, p[i].chunk) && p[i].score >= threshold {
      assert AtLeast(threshold)(p[i]) && p[i] in all;
      var j :| 0 <= j < |all| && all[j] == p[i];
    }
  }

  lemma SortConsistent(q: seq<string>, threshold: real, s: seq<Scored>)
    requires Consistent(q, threshold, s)
    ensures Consistent(q, threshold, SortDesc(s))
  {
    var r := SortDesc(s);
    SortMembers(s);
    forall i | 0 <= i < |r| ensures r[i].score == ScoreOf(q, r[i].chunk) && r[i].score >= threshold {
      var j :| 0 <= j < |s| && s[j] == r[i];
    }
  }

  /** The ranked list holds exactly the passing chunks, each as often as in
      the input, with their scores, best first. */
  lemma RankedSpec(q: seq<string>, chunks: seq<Chunk>, threshold: real)
    ensures var r := Ranked(q, chunks, threshold);
      && SortedDesc(r)
      && multiset(ChunksOf(r)) == multiset(Filter(Passes(q, threshold), chunks))
      && Consistent(q, threshold, r)
  {
    var p := Filter(AtLeast(threshold), ScoreAll(q, chunks));
    SortDescSpec(p);
    SortChunks(p);
    PassingChunks(q, chunks, threshold);
    PassingConsistent(q, chunks, threshold);
    SortConsistent(q, threshold, p);
  }

  /** No results for an empty query, an empty chunk list, or a query without
      tokens. */
  lemma RetrieveTopKEmpty(query: string, chunks: seq<Chunk>, k: int, threshold: real)
    requires query == [] || chunks == [] || Tokenize(query) == []
    ensures RetrieveTopK(query, chunks, k, threshold) == []
  {
  }

  /** With `m` chunks scoring at least the threshold, `min(k, m)` come back
      (a negative `k` drops `-k` from the end, as `slice(0, k)` does). */
  lemma RetrieveTopKCount(query: string, chunks: seq<Chunk>, k: int, threshold: real)
    requires query != [] && chunks != [] && Tokenize(query) != []
    ensures var m := |Filter(Passes(Tokenize(query), threshold), chunks)|;
      |RetrieveTopK(query, chunks, k, threshold)|
        == if k >= 0 then (if k < m then k else m) else (if m + k > 0 then m + k else 0)
  {
    var q := Tokenize(query);
    RankedSpec(q, chunks, threshold);
    var ranked := Ranked(q, chunks, threshold);
    assert |ChunksOf(ranked)| == |ranked|;
    var f := Filter(Passes(q, threshold), chunks);
    assert |multiset(f)| == |f| && |multiset(ChunksOf(ranked))| == |ChunksOf(ranked)|;
  }

  /** Every result scores at least the threshold and the scores do not
      increase along the list. */
  lemma RetrieveTopKOrdered(query: string, chunks: seq<Chunk>, k: int, threshold: real)
    requires query != [] && chunks != [] && Tokenize(query) != []
    ensures var q, r := Tokenize(query), RetrieveTopK(query, chunks, k, threshold);
      && (forall i | 0 <= i < |r| :: ScoreOf(q, r[i]) >= threshold)
      && (forall i, j | 0 <= i < j < |r| :: ScoreOf(q, r[i]) >= ScoreOf(q, r[j]))
  {
    var q := Tokenize(query);
    var ranked := Ranked(q, chunks, threshold);
    RetrieveTopKRanked(query, chunks, k, threshold);
    RankedSpec(q, chunks, threshold);
    PrefixOrdered(q, threshold, ranked, Take(ranked, k));
  }

  /** The chunk test `score === v`. */
  function HasScore(q: seq<string>, v: real): Chunk -> bool {
    (c: Chunk) => ScoreOf(q, c) == v
  }

  /** For entries that carry their chunk's score, keeping the entries that
      score `v` and keeping the chunks that score `v` agree. */
  lemma {:induction false} ChunksOfScoreIs(q: seq<string>, v: real, s: seq<Scored>)
    requires forall i | 0 <= i < |s| :: s[i].score == ScoreOf(q, s[i].chunk)
    ensures ChunksOf(Filter(ScoreIs(v), s)) == Filter(HasScore(q, v), ChunksOf(s))
    decreases |s|
  {
    if s != [] {
      var x, t := s[0], s[1..];
      assert s == [x] + t;
      assert forall i | 0 <= i < |t| :: t[i] == s[i + 1];
      ChunksOfScoreIs(q, v, t);
      ChunksOfCons(x, t);
      FilterCons(ScoreIs(v), x, t);
      FilterCons(HasScore(q, v), x.chunk, ChunksOf(t));
      if x.score == v {
        ChunksOfCons(x, Filter(ScoreIs(v), t));
      } else {
        AppendEmpty(Filter(ScoreIs(v), t));
        AppendEmpty(Filter(HasScore(q, v), ChunksOf(t)));
      }
    }
  }

  /** The ranked list holds the chunks of each passing score in input
      order. */
  lemma RankedStable(q: seq<string>, chunks: seq<Chunk>, threshold: real, v: real)
    requires v >= threshold
    ensures Filter(HasScore(q, v), ChunksOf(Ranked(q, chunks, threshold))) == Filter(HasScore(q, v), chunks)
  {
    var p := Filter(AtLeast(threshold), ScoreAll(q, chunks));
    RankedSpec(q, chunks, threshold);
    ChunksOfScoreIs(q, v, SortDesc(p));
    SortDescStable(v, p);
    PassingConsistent(q, chunks, threshold);
    ChunksOfScoreIs(q, v, p);
    PassingChunks(q, chunks, threshold);
    FilterFilter(HasScore(q, v), Passes(q, threshold), chunks);
  }

  /** Results of equal score come back in input order: for every score
      `v`, the returned chunks scoring `v` are the first of the input's
      chunks scoring `v`, in the order the input has them. */
  lemma RetrieveTopKStable(query: string, chunks: seq<Chunk>, k: int, threshold: real, v: real)
    requires query != [] && chunks != [] && Tokenize(query) != []
    ensures var q := Tokenize(query);
      Filter(HasScore(q, v), RetrieveTopK(query, chunks, k, threshold)) <= Filter(HasScore(q, v), chunks)
  {
    var q := Tokenize(query);
    var ranked := Ranked(q, chunks, threshold);
    RetrieveTopKRanked(query, chunks, k, threshold);
    ChunksOfPrefix(Take(ranked, k), ranked);
    FilterPrefix(HasScore(q, v), ChunksOf(Take(ranked, k)), ChunksOf(ranked));
    if v < threshold {
      RankedBelow(q, chunks, threshold, v);
    } else {
      RankedStable(q, chunks, threshold, v);
    }
  }

  /** No ranked chunk scores below the threshold. */
  lemma RankedBelow(q: seq<string>, chunks: seq<Chunk>, threshold: real, v: real)
    requires v < threshold
    ensures Filter(HasScore(q, v), ChunksOf(Ranked(q, chunks, threshold))) == []
  {
    var r := Ranked(q, chunks, threshold);
    RankedSpec(q, chunks, threshold);
    FilterNone(HasScore(q, v), ChunksOf(r));
  }

  lemma ChunksOfPrefix(a: seq<Scored>, b: seq<Scored>)
    requires a <= b
    ensures ChunksOf(a) <= ChunksOf(b)
  {
  }

  lemma RetrieveTopKRanked(query: string, chunks: seq<Chunk>, k: int, threshold: real)
    requires query != [] && chunks != [] && Tokenize(query) != []
    ensures RetrieveTopK(query, chunks, k, threshold) == ChunksOf(Take(Ranked(Tokenize(query), chunks, threshold), k))
  {
  }

  /** A prefix of a sorted, consistently scored list keeps both. */
  lemma PrefixOrdered(q: seq<string>, threshold: real, ranked: seq<Scored>, top: seq<Scored>)
    requires SortedDesc(ranked) && Consistent(q, threshold, ranked) && top <= ranked
    ensures var r := ChunksOf(top);
      && (forall i | 0 <= i < |r| :: ScoreOf(q, r[i]) >= threshold)
      && (forall i, j | 0 <= i < j < |r| :: ScoreOf(q, r[i]) >= ScoreOf(q, r[j]))
  {
    assert forall i | 0 <= i < |top| :: top[i] == ranked[i];
  }

  /** Every result is one of the input chunks, returned no more often than
      it occurs. */
  lemma RetrieveTopKFromInput(query: string, chunks: seq<Chunk>, k: int, threshold: real)
    ensures multiset(RetrieveTopK(query, chunks, k, threshold)) <= multiset(chunks)
  {
    if query != [] && chunks != [] && Tokenize(query) != [] {
      var q := Tokenize(query);
      var ranked := Ranked(q, chunks, threshold);
      RankedSpec(q, chunks, threshold);
      var top := Take(ranked, k);
      FilterCounts(Passes(q, threshold), chunks);
      TakeMultiset(ranked, k);
      ChunksOfAppend(top, ranked[|top|..]);
    }
  }

  lemma TakeMultiset<T>(s: seq<T>, k: int)
    ensures Take(s, k) + s[|Take(s, k)|..] == s
  {
  }

  /** Top-k completeness: a passing chunk that is returned fewer times than
      it occurs scores no higher than any returned chunk. */
  lemma RetrieveTopKComplete(query: string, chunks: seq<Chunk>, k: int, threshold: real, c: Chunk)
    requires query != [] && chunks != [] && Tokenize(query) != []
    requires ScoreOf(Tokenize(query), c) >= threshold
    requires multiset(RetrieveTopK(query, chunks, k, threshold))[c] < multiset(chunks)[c]
    ensures var r := RetrieveTopK(query, chunks, k, threshold);
      forall i | 0 <= i < |r| :: ScoreOf(Tokenize(query), c) <= ScoreOf(Tokenize(query), r[i])
  {
    var q := Tokenize(query);
    var ranked := Ranked(q, chunks, threshold);
    RankedSpec(q, chunks, threshold);
    FilterCounts(Passes(q, threshold), chunks);
    var top := Take(ranked, k);
    var rest := ranked[|top|..];
    TakeMultiset(ranked, k);
    ChunksOfAppend(top, rest);
    assert multiset(ChunksOf(ranked)) == multiset(ChunksOf(top)) + multiset(ChunksOf(rest));
    assert c in multiset(ChunksOf(rest));
    var j :| 0 <= j < |rest| && ChunksOf(rest)[j] == c;
    assert rest[j] == ranked[|top| + j];
    forall i | 0 <= i < |top| ensures ScoreOf(q, c) <= ScoreOf(q, ChunksOf(top)[i]) {
      assert top[i] == ranked[i];
    }
  }

  // ---------------------------------------------------------------------
  // retrieveTopKFromDocument
  // ---------------------------------------------------------------------

  /** The test `c.documentId === documentId`. */
  function InDocument(documentId: string): Chunk -> bool {
    (c: Chunk) => c.documentId == documentId
  }

  /** `retrieveTopKFromDocument`: retrieval over one document's chunks with
      the default threshold. */
  function RetrieveTopKFromDocument(query: string, chunks: seq<Chunk>, documentId: string, k: int): seq<Chunk> {
    RetrieveTopK(query, Filter(InDocument(documentId), chunks), k, DefaultThreshold)
  }

  /** Only chunks of the requested document come back, each no more often
      than it occurs; on a list of that document's chunks alone it is plain
      retrieval. */
  lemma RetrieveTopKFromDocumentSpec(query: string, chunks: seq<Chunk>, documentId: string, k: int)
    ensures var r := RetrieveTopKFromDocument(query, chunks, documentId, k);
      && (forall i | 0 <= i < |r| :: r[i].documentId == documentId)
      && multiset(r) <= multiset(chunks)
    ensures (forall i | 0 <= i < |chunks| :: chunks[i].documentId == documentId) ==>
              RetrieveTopKFromDocument(query, chunks, documentId, k) == RetrieveTopK(query, chunks, k, DefaultThreshold)
  {
    var own := Filter(InDocument(documentId), chunks);
    var r := RetrieveTopK(query, own, k, DefaultThreshold);
    RetrieveTopKFromInput(query, own, k, DefaultThreshold);
    FilterCounts(InDocument(documentId), chunks);
    forall i | 0 <= i < |r| ensures r[i].documentId == documentId {
      assert r[i] in multiset(r);
    }
    if forall i | 0 <= i < |chunks| :: chunks[i].documentId == documentId {
      FilterAllPass(InDocument(documentId), chunks);
    }
  }
}
